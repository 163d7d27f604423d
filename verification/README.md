# Verification of the placement, reconciliation and store logic

Ikhnos shows what runs where, what agents discovered and what people said about it, and judges
where a workload could move. This project models that logic in Dafny and proves what it promises.

* **Placement judgement** (`Advice`, `PoolWorlds`, `Thresholds`, `MovedThresholds`, `Ageing`, `Trust`,
  `Capacity`, `Movability`, `TargetWorlds`, `TargetExactness`, `MovedTargets`, `Estate`,
  `EstateAnswers`). Uncertain facts about nodes become an interval of free capacity; a need is compared with it; checks on kind, selectors, residency
  and trust zone are combined with the result. A *world* fixes everything left uncertain: each
  node's true free amount inside the interval its own figures and their classes allow, each
  unreported architecture, and each residency and zone that is not set. A target that "fits" works
  in every world, one that "does not fit" in none, and both answers are exact but for two families
  of inputs: an architecture that is asked for and not reported, and an unset zone (both below).
  `Estate` says the same of the model itself, without pools or classes: nodes with their labels and
  figures give or take 15 or 30 percent, settings of clusters and sites, replicas that each ask for
  something. Amounts are exact reals, with an explicit case for "not bounded".
* **Declared and observed records** (`Records`, `Discovered`, `DiscoveredLaws`, `Declared`,
  `DeclaredLaws`, `PollOutcome`, `PollRest`, `ReducedRest`, `Statements`, `Workspaces`, `Effective`,
  `ShownValues`, `Observed`, `ObservedLaws`, `ObservedKeys`, `ObservedMeans`, `Migrate`,
  `MigrateKeeps`). Polls bring what agents report, people override it, a
  workspace is reduced to what was declared, saved, and loaded again at any later time. Whatever the
  order of these events, what is stated about an id is the last thing said about it, as long as no
  load brings back a typed record that has been reported since (below); and a repeated poll changes
  nothing unless it drops an attribution. The bucketed overlay of observed edges, which mutates
  edges in place, agrees with a search of the whole list.
* **Store protocols** (`History`, `Settings`, `Server`, `ServerLaws`, `ServerShown`,
  `SettingsInUse`). What happens between two awaits is one step; requests in flight are a map or a
  set; any request may be answered, or fail, at any time, or never. Each store is a class whose
  methods are proved to be the steps of a transition system. Over all its runs it is proved what
  must not be shown, and what must be.
* **Self-contained algorithms** (`Install`, `SelfHealth`, `Csv`): the union of signal scopes, the
  axis of a chart, the CSV printer with a reader written to section 2 of RFC 4180.

`Thinning` is what all filters are stated by: which elements of a list are kept, in order, and that
there are no others.

Code that loops or assigns is a method proved equal to a function of its inputs (or, for classes,
of its old state); the laws are lemmas about that function.

## What turned out not to hold

Each is stated with the condition under which it does hold.

* A node that has not reported the architecture a selector names is given an unknown capacity, and
  is never held against the selector; so "can't tell" is the answer also where its own figures fall
  short, or where no architecture would do. For a selector this happens somewhere exactly when it
  names an architecture (`TargetExactness.NoIsExactExactlyWhen`), and at a target exactly where
  `TargetExactness.DoesNotFitIsExactExactlyWhen` says. An architecture without a
  name is one that no node can have and a silent node may match: `Estate.MatchIsRightExactlyWhen`.
* When the workload leaves a public zone and the target's zone is not set, the answer is never
  "fits", although every zone would pass: `TargetExactness.FitsIsExactExactlyWhen` for the pair of
  zones, `TargetExactness.FitsIsExactAtExactlyWhen` for a target.
* After a what-if arrival that takes more than the low end but less than what is reported free,
  the listed amount is not one at which the workload fits: `MovedThresholds.MovedThresholdIsExactWhen`.
* With nothing known to be free, no amount is listed below which a need would not fit, although
  there can be one: `Thresholds.DoesNotFitListedExactlyWhen`, `Thresholds.UnlistedAtAnEmptyPlace`.
* What-if arrivals before departures can lift the low end above the plain sum:
  `Capacity.FitIsSoundPlainlyExactlyWhen`, `Capacity.ArrivalsFirstCanOverstate`.
* A poll that lands a remembered ref loses the attribution of its overrides at the next poll, so
  that one is not a fixpoint: `DiscoveredLaws.PollIsFixpoint`, `DiscoveredLaws.SecondPollCanChange`.
* A workspace that holds a typed record which discovery has come to report under the same id is
  loaded with that record held twice, and the found copy loses what was said. A load is well kept
  exactly when no id clashes so (`Workspaces.LoadIsWellKeptExactlyWhen`, over whole runs
  `Workspaces.RunIsSoundExactlyWhen`); `Workspaces.TypedAndReportedIsHeldTwice` is a run of three
  steps that fails.
* An application that a person chose over the one a record's label suggests outlives the loading of
  a workspace that does not assign one: a ref put on a record comes back from it exactly under the
  condition of `DeclaredLaws.RefComesBackExactlyWhen`; `DeclaredLaws.ChosenOutlivesLoad` is the input.
* Edges are found by a joined string of their ends. Strings serve as well as the ends themselves
  exactly when no two ends join to the same one (`ObservedKeys.JoinedKeysServeExactlyWhen`); ids
  without "=>" never do (`ObservedKeys.ArrowFreeIdsAreTold`), others can (`ObservedKeys.ArrowsCanCollide`).
* An observed edge without a port, without numbers, or with sources that repeat or do not name
  "observed", moves or is rewritten when laid again: `ObservedLaws.StaysPutExactlyWhen`.
* An edited copy that leaves out a detected value does not take it away:
  `Effective.EditRoundTripExactlyWhen`.
* An organisation's info, unlike its state, is written without asking whether that organisation is
  still in use, by a switch and by pages that read it again, and it outlives an expired session:
  `ServerLaws.InfoIsAlwaysInUseExactlyWhen`, `ServerLaws.OverlappingSwitchesShowOldInfo`,
  `ServerLaws.LateInquiryShowsOldInfo`.
* A switch that was overtaken still asks for the settings of the organisation it was started for,
  after the clear of the switch that overtook it, so that settings marked loaded can be another
  organisation's; and an expired session leaves them loaded:
  `SettingsInUse.SettingsAreInUseExactlyWhen`, `SettingsInUse.OvertakenSwitchShowsOldSettings`.
* A table row without cells comes back from its CSV file as one empty cell:
  `Csv.RowsComeBackExactlyWhen`.
* Signals that mix include lists with exclude lists can combine to more than any of them keeps:
  `Install.NamespacesAreExactExactlyWhen`, `Install.WorkloadsAreExactExactlyWhen`.

## Model

| member | source | states |
|---|---|---|
| Advice.NewPool | src/lib/advice.ts:100-140 | the loop over nodes computes the pool PoolOf, whose meaning the world lemmas state |
| Advice.Combine | src/lib/advice.ts:38-45 | rule 6: any definite no, else any can't-tell, else fits |
| Advice.Assess | src/lib/advice.ts:352-379 | rules 6 and 7: the combined verdict; the class is the weakest among "reported" and the parts that share the verdict; a can't-tell is never trusted above low; only their changes are listed |
| Trust.AnswerRestsOn | src/lib/advice.ts:16-17 | rule 7 down to the facts: the class of an answer about free capacity is the weakest among the need's and those of the very facts it rests on, for each of the three verdicts |
| Trust.FactAgesByOne | src/lib/advice.ts:62-66 | rule 3: a known fact counts as one class worse exactly when it is older than the window, and a guess stays a guess |
| Trust.LevelsFollowClasses | src/lib/advice.ts:47-49 | levels go with classes, and only measured and reported share one |
| Advice.ChangesAre | src/lib/advice.ts:352-379 | the changes listed with a whole answer are exactly those of the parts that share its verdict |
| PoolWorlds.IntervalEncloses | src/lib/advice.ts:100-140 | for every choice of true free amounts the interval of the pool contains their total |
| PoolWorlds.EndsAttained | src/lib/advice.ts:100-140 | the low end is the total of some world; the high end too, or is exceeded at will when not bounded |
| PoolWorlds.VerdictIsExact | src/lib/advice.ts:237-255 | rule 5 both ways: fits exactly when every world covers the need, does not fit exactly when none does |
| Thresholds.PoolIsBuilt | src/lib/advice.ts:100-140 | what every pool of nodes guarantees about the order of its amounts |
| Thresholds.FitsExactly | src/lib/advice.ts:156-175 | a pool scaled to x fits exactly when x reaches the upper threshold, for every ordered pool whose low end is not emptied |
| Thresholds.DoesNotFitExactly | src/lib/advice.ts:263-274 | a pool scaled to x does not fit exactly when the lower threshold exists and x is below it; it lies strictly below the upper one |
| Thresholds.DoesNotFitListedExactlyWhen | src/lib/advice.ts:269-274 | without known free capacity the lower threshold is exact only when unknown nodes alone could cover the need |
| Thresholds.UnlistedAtAnEmptyPlace | src/lib/advice.ts:283-289 | at a place without nodes no free capacity would not fit, and no amount is listed below which it would not |
| Thresholds.ScaledToItself | src/lib/advice.ts:155-162 | scaling to what is known to be free leaves the verdict as it is |
| Thresholds.ListedChangesAreBoundaries | src/lib/advice.ts:276-294 | every change listed with a fit sits on a real boundary: the verdict is the stated one on one side and another on the other |
| Thresholds.EveryFlipIsListed | src/lib/advice.ts:276-294 | with some free capacity known no flip is left unlisted: an amount gives another verdict exactly when it reaches a listed change |
| Thresholds.OpenListsWhereItFits | src/lib/advice.ts:281-289 | an open answer always lists where it would fit, also with nothing known to be free |
| MovedThresholds.MovesKeepOrdered | src/lib/capacity.ts:77-92 | any moves keep the amounts of a pool in order |
| MovedThresholds.MovedThresholdIsExactWhen | src/lib/advice.ts:263-267 | after any moves the upper threshold is exact if and only if the low end is not emptied beside known free capacity |
| MovedThresholds.MovedNoIsExact | src/lib/advice.ts:269-274 | after any moves that leave known free capacity the lower threshold is exact |
| MovedThresholds.MovesCanEmpty | src/lib/advice.ts:150-153 | the emptied case is reached by one arrival |
| Ageing.PoolAges | src/lib/advice.ts:62-66 | with the facts fixed and time advancing the interval of a pool only widens |
| Ageing.FitAges | src/lib/advice.ts:246-255 | with time a verdict stays or becomes "can't tell", never the opposite and never newly definite |
| Ageing.CombinedAges | src/lib/advice.ts:38-45 | parts that only weaken combine to a verdict that only weakens |
| Capacity.CapNodes | src/lib/capacity.ts:45-56 | the facts of each node, in order: a missing figure is unknown, only discovered records have an age |
| Capacity.NeedsArePositive | src/lib/capacity.ts:58-64 | a need that is known is positive: no request is unknown, not zero |
| Capacity.NeedsAreTogether | src/lib/capacity.ts:58-64 | the need is the sum of what all replicas, at least one, ask for one by one, a thousand millicores being a core and 1024 MiB a GiB; what is not asked for is not known |
| Capacity.BuildPools | src/lib/capacity.ts:71-74 | the two pools of a place |
| Capacity.AdjustPools | src/lib/capacity.ts:77-92 | the loop over moves folds each move's effect into each pool, a leaving workload without a request having none |
| Capacity.MovesStayEnclosed | src/lib/capacity.ts:77-92 | over any list of arrivals and departures 0 <= lo <= knownFree <= hi holds and the interval encloses the true amount tracked with the same floor at zero |
| Capacity.MovesStaySound | src/lib/advice.ts:150-153 | the verdict after the moves is right about the tracked amount |
| Capacity.WorldsEnclosed | src/lib/advice.ts:100-140 | a pool of nodes starts out enclosing the total of every world |
| Capacity.FlooredIsPeak | src/lib/advice.ts:150-153 | the low end after any moves, arrivals without a request included, is the plain sum (if all have one) or what the best tail after the last emptying gives back |
| Capacity.NoIsSoundPlainly | src/lib/advice.ts:150-153 | "does not fit" after any moves in any order is right about the plain, unfloored amount, from which an arrival without a request takes any amount |
| Capacity.FitIsSoundPlainlyExactlyWhen | src/lib/capacity.ts:77-92 | "fits" after any moves is right about the plain amount exactly when no tail of them gives back more than the low end and all moves surely leave |
| Capacity.DeparturesFirstSuffices | src/lib/capacity.ts:77-92 | with departures before arrivals, those without a request included, "fits" is right about the plain amount |
| Capacity.ArrivalsFirstCanOverstate | src/lib/advice.ts:150-153 | an arrival of twelve and a departure of ten at a place with one node that reports ten free overstate what is left |
| Capacity.UnknownArrivalCanOverstate | src/lib/capacity.ts:82-84 | so do an arrival without a request and a departure after it |
| Movability.ChecksAndPool | src/lib/movability.ts:241-300 | the checks of one target in order and the nodes that could host: the definite ones, then the possible ones with their capacity unknown |
| Movability.JudgeTarget | src/lib/movability.ts:209-221 | capacity after moves and the checks, a target that is not live ruled out; verdict, class, confidence and changes of the whole |
| Movability.MoveTargets | src/lib/movability.ts:227-318 | one answer for every other cluster that is not deleted, each for its own case |
| TargetWorlds.HostsBetween | src/lib/movability.ts:195-200 | whatever an unreported architecture is, a definite node hosts, and only definite or possible nodes do |
| TargetWorlds.PoolEnclosesHosted | src/lib/movability.ts:248-267 | the interval of the hosting pool encloses what the nodes that host in a world have free there |
| TargetWorlds.DimIsSound | src/lib/capacity.ts:119-149 | each dimension's verdict is right in every world |
| TargetWorlds.VerdictOfParts | src/lib/advice.ts:352-353 | a target is ruled out exactly when some part rules it out, open exactly when none does and some is open |
| TargetWorlds.FitsIsSound | src/lib/movability.ts:227-306 | a target judged "fits" passes every check and covers the need in every world |
| TargetWorlds.DoesNotFitIsSound | src/lib/movability.ts:227-306 | a target judged "does not fit" fails in every world |
| TargetExactness.HopelessExactlyWhen | src/lib/movability.ts:195-221 | a move works in no world exactly when a check rules it out, no node could host it, or those that could fall short at the high end of their own figures |
| TargetExactness.DoesNotFitIsExactExactlyWhen | src/lib/movability.ts:248-267 | "does not fit" is said exactly when no world works, if and only if policy rules the target out or no node that only might match makes the difference |
| TargetExactness.BareCaseIsHopeless | src/lib/movability.ts:252-256 | for every selector that names an architecture there is a target, one node of one core and a need of a hundred, where it makes the difference |
| TargetExactness.NoIsExactExactlyWhen | src/lib/movability.ts:194-200 | so "does not fit" is exact at all targets if and only if the selector names no architecture |
| TargetExactness.FitsIsExact | src/lib/movability.ts:227-306 | unless the zone is left open to all, "fits" is said exactly when every world works |
| TargetExactness.OpenToAllIsOvercautious | src/lib/movability.ts:287-300 | with the zone left open "fits" is never said, and every world works exactly when setting the lowest zone would say it |
| TargetExactness.FitsIsExactAtExactlyWhen | src/lib/movability.ts:287-300 | "fits" is exact at a target if and only if it is not one where only a zone left open to all stands against it |
| TargetExactness.FitsIsExactExactlyWhen | src/lib/movability.ts:287-300 | so "fits" is exact at all targets of a pair of zones if and only if the pair is not a public zone and an unset one |
| TargetExactness.TargetAges | src/lib/movability.ts:209-221 | with time the whole answer for a target, what-if moves included, stays or becomes "can't tell" |
| TargetWorlds.ChecksAreSound | src/lib/movability.ts:246-300 | checks that are all passed hold in every world, and a failed check holds in none |
| MovedTargets.StartsEnclosed | src/lib/movability.ts:248-256 | before any move the pool encloses what is really free, targets without known or hosting nodes included |
| MovedTargets.MovedTargetIsSound | src/lib/movability.ts:209-221 | after any what-if moves, with the true free amounts tracked through them, "fits" works in every world and "does not fit" in none |
| MovedTargets.PlanIsSound | src/lib/movability.ts:209-221 | against the plain amounts, without the floor at zero: after any moves "does not fit" is right in every world, and "fits" is when what leaves leaves first |
| Estate.CoresAllowedIs | src/lib/capacity.ts:45-56 | what the facts of a node allow is what it reports less what is asked of it, give or take 15 percent, or 30 when that is older than the window |
| Estate.BytesAllowedIs | src/lib/capacity.ts:45-56 | the same for memory, from GiB to bytes |
| Estate.CarriesIs | src/lib/movability.ts:91-102 | which labels a node can be matched on: its own first, then what its architecture, system and zone say |
| Estate.MatchIsRightExactlyWhen | src/lib/movability.ts:194-200 | a node is said to match, not to match, or maybe, exactly as it must, cannot, or may carry the label; for every node if and only if the label is not an architecture without a name |
| Estate.SettingsAre | src/lib/movability.ts:228-231 | residency and zone of both places: a cluster's own before those of the first site with its site's id |
| Estate.TruthIsPossible | src/lib/movability.ts:227-306 | what may be true of the model is exactly what the worlds of the case of a workload at a target are |
| EstateAnswers.OneTargetEach | src/lib/movability.ts:238-239 | there is one target for each cluster that is not deleted and not the workload's own, in order, and no other |
| EstateAnswers.EveryTargetIsRight | src/lib/movability.ts:227-306 | in every truth of the model a target said to fit works, and one said not to fit does not |
| EstateAnswers.FitsExactlyWhenItAlwaysWorks | src/lib/movability.ts:227-306 | unless a public workload meets a zone that is not set, "fits" is said exactly when the move works in every truth |
| EstateAnswers.NoExactlyWhenItNeverWorks | src/lib/movability.ts:227-306 | for a workload that asks for no architecture, "does not fit" is said exactly when the move works in no truth |
| EstateAnswers.PlanIsRight | src/lib/capacity.ts:77-92 | after other workloads moved in and out, replica by replica, "does not fit" is right in every truth, and "fits" is when what leaves leaves first |
| Observed.NameExternals | src/lib/observed.ts:24-34 | an observed address takes the id of the endpoint at its host and port, else at its host, else is added and found by those after it |
| Observed.Group | src/lib/observed.ts:38-49 | the copies hold the base edges and each bucket is the sub-sequence of them with its ends, in order |
| Observed.FindPort | src/lib/observed.ts:60 | the first edge of a bucket with a port |
| Observed.BucketFindsFirst | src/lib/observed.ts:56-60 | the first hit in a bucket is the first hit in the whole list |
| Observed.Locate | src/lib/observed.ts:55-60 | the bucket search finds the edge that a search of the whole list finds: same port first, else the first portless one |
| Observed.BucketedAfterUpdate | src/lib/observed.ts:67-73 | changing an edge in place, its ends kept, leaves every bucket right |
| Observed.BucketedAfterPush | src/lib/observed.ts:61-66 | adding an edge to the list and to its bucket leaves every bucket right |
| Observed.LayInPlace | src/lib/observed.ts:60-73 | one observed edge is merged in place or added as the linear search says, and the buckets stay right |
| Observed.WithObserved | src/lib/observed.ts:16-76 | the bucketed overlay with in-place mutation equals the overlay by linear search |
| ObservedMeans.MergeTellsBoth | src/lib/observed.ts:67-73 | a merged edge is the declared one, confirmed by both: sources united, the higher confidence, the earlier first sight, the newest figures |
| ObservedMeans.AddedExactlyWhen | src/lib/observed.ts:56-66 | an observed edge is added exactly when no edge has its ends and its port or none; else one that does is merged in place |
| ObservedMeans.LandingIs | src/lib/observed.ts:57-60 | it is merged into the first with its port, or, only where there is none, the first without |
| ObservedMeans.OverlayMakesNoTwins | src/lib/observed.ts:50-74 | however often an edge is observed, no two edges with the same ends and port come about |
| ObservedMeans.PictureIs | src/lib/observed.ts:16-76 | the observations that count are those both of whose ends are there under the names they have here, in order; with none seen the base is the picture |
| ObservedMeans.NamedExactlyWhen | src/lib/observed.ts:24-34 | an observed endpoint is new exactly when none stands for its address, and else goes by the name of one that does, with its port if there is one |
| ObservedLaws.OverlayGrows | src/lib/observed.ts:60-73 | base edges keep position, ends and any port they had, sources only grow, confidence never drops |
| ObservedLaws.EveryObservedIsRepresented | src/lib/observed.ts:50-73 | every observed edge both of whose ends exist here, under their own names here, is in the picture: ends, port, at least its confidence, and its source |
| ObservedLaws.AddedNeverDangle | src/lib/observed.ts:50-53 | both ends of every added edge exist |
| ObservedLaws.OverlayIsStable | src/lib/observed.ts:50-75 | laying settled observations again changes no edge |
| ObservedLaws.StaysPutExactlyWhen | src/lib/observed.ts:60-72 | an observation among settled ones leaves every overlay stable if and only if it has a port, numbers, and distinct sources that name "observed" |
| ObservedLaws.NamingRetraces | src/lib/observed.ts:24-34 | naming the same addresses again adds none and renames as before |
| ObservedLaws.OverlaidIsStable | src/lib/observed.ts:16-76 | the whole picture, edges and endpoints, is a fixpoint of the same settled observations |
| ObservedKeys.JoinedKeysServeExactlyWhen | src/lib/observed.ts:42-43 | among any ends, finding edges by the joined string gives the same overlay as by the ends themselves, for all lists, exactly when no two ends join to the same string |
| ObservedKeys.ArrowFreeIdsAreTold | src/lib/observed.ts:42-43 | joined strings tell all ends apart when no id at the start of an edge contains "=>" |
| ObservedKeys.ArrowsCanCollide | src/lib/observed.ts:42-43 | with such ids, different ends can join to the same string |
| Records.DeepEqualIsPlainEquality | src/lib/discovered.ts:129-145 | structural comparison is exactly equality once undefined keys are left out, so key order and undefined keys never count as a change |
| Records.DeepEqualReflexive | src/lib/discovered.ts:129-145 | every value equals itself |
| Discovered.Index | src/lib/discovered.ts:153 | the last report with an id counts, at the place of the first |
| DiscoveredLaws.UpdateIsHonest | src/lib/discovered.ts:155-171 | a stored record keeps its overrides, site and application through an update, is tombstoned exactly when its agent's complete picture lacks it, and counts as changed exactly when it differs |
| Discovered.UpdateStored | src/lib/discovered.ts:155-172 | the pass over stored records that takes reports out of the index |
| Discovered.LandNew | src/lib/discovered.ts:173-180 | what is left in the index lands with its ref, and the refs lose it |
| Discovered.MergeList | src/lib/discovered.ts:152-182 | the whole merge of a list, its "changed" answer and the refs left |
| Discovered.MergeDiscovered | src/lib/discovered.ts:184-284 | the merge of a server document into a model |
| PollOutcome.UnreportedAfterPoll | src/lib/discovered.ts:167-171 | a stored record that is not reported stays as it is, or is marked as gone exactly when it was found, is not gone yet, and its agent is in the document, approved and synced |
| PollOutcome.NothingVouchedNothingGone | src/lib/discovered.ts:117-118 | a server that has no approved agent's facts in full wipes nothing |
| PollOutcome.ReportedAfterPoll | src/lib/discovered.ts:155-166 | a reported record shows what is reported last, a cluster the public address its last agent connects from, and keeps what people own; a service takes the application its label names, if that exists |
| PollOutcome.NewcomersAre | src/lib/discovered.ts:173-181 | after the stored records come exactly the reported ids nothing was held under, by first report |
| PollOutcome.NewAfterPoll | src/lib/discovered.ts:173-181 | a new record shows what is reported, with what was said about it before, and its ref is gone |
| PollRest.LogAfterPoll | src/lib/discovered.ts:275-278 | the log keeps what it had and gets the events whose id it did not have |
| PollRest.AgentsAfterPoll | src/lib/discovered.ts:202-244 | agents the server does not know stay, and those it knows are as it says |
| PollRest.UnmovedAgentStays | src/lib/discovered.ts:240-242 | an agent nothing of which moved stays the very one that is stored |
| PollRest.SuggestionsAfterPoll | src/lib/discovered.ts:246-273 | a decision is never reopened, what is open is as suggested now or taken back by who made it, and what is new and not done yet is added once |
| DiscoveredLaws.UpdateSettles | src/lib/discovered.ts:155-165 | a record updated from a report is not changed by the same report |
| DiscoveredLaws.LandingSettlesUnlessMetaLost | src/lib/discovered.ts:173-180 | a landed record is changed by the same report exactly when its ref's attribution differs from the report's |
| DiscoveredLaws.ListSettles | src/lib/discovered.ts:152-182 | merging the same report again changes a list exactly when attribution is lost, and takes no ref |
| DiscoveredLaws.AgentsSettle | src/lib/discovered.ts:202-244 | merging the same agents again changes nothing |
| DiscoveredLaws.SuggestionsSettle | src/lib/discovered.ts:246-273 | merging the same suggestions again changes nothing; decisions are not reopened and dropped ones stay away |
| DiscoveredLaws.EventsSettle | src/lib/discovered.ts:275-278 | merging the same audit events again adds none |
| DiscoveredLaws.RefsAreWhatIsLeft | src/lib/discovered.ts:280-282 | comparing counts to keep the old refs never keeps a wrong map |
| DiscoveredLaws.PollIsFixpoint | src/lib/discovered.ts:184-284 | the second poll with one document changes nothing, every "changed" answer being false, if and only if the first lands no ref whose attribution is lost |
| DiscoveredLaws.SecondPollCanChange | src/lib/discovered.ts:159 | a remembered override with its attribution, and a report of that node, for which the second poll does change something |
| Declared.ReduceList | src/lib/declared.ts:71-83 | the loop that keeps typed records and turns found ones into refs, counting them |
| Declared.DropSilent | src/lib/declared.ts:84 | refs that say nothing, or have no id, are deleted |
| Declared.Clean | src/lib/declared.ts:87-92 | the loop that takes the observed fields off applications, endpoints and devices |
| Declared.KeepDependencies | src/lib/declared.ts:98-107 | the loop that drops what was only seen and takes "observed" off the other sources, counting what it drops |
| Declared.ReduceModel | src/lib/declared.ts:67-126 | reducing a model to what people declared, dependencies, links and observed fields included, with the report's counts |
| ReducedRest.ReducedModelKeeps | src/lib/declared.ts:87-126 | kept, in order and nothing else: every dependency with a source of its own, or none, with exactly its own sources; links that are not measured; decisions; own events; records without the observed fields |
| ReducedRest.ReportCountsWhatIsGone | src/lib/declared.ts:94-112 | the report counts exactly the suggestions, dependencies, links and agents that are gone |
| ReducedRest.ReducedRecordsAre | src/lib/declared.ts:67-85 | of each list the typed records stay, in order, and the report counts the others and the refs |
| Declared.RestoreList | src/lib/declared.ts:164-173 | the loop that appends held found records under their refs and deletes those refs |
| Declared.Rehydrate | src/lib/declared.ts:161-175 | a reload over held records, kind after kind |
| DeclaredLaws.RefRoundTrip | src/lib/declared.ts:51-61 | the ref a record leaves, put back on it, restores all that matters, accepted application hints included |
| DeclaredLaws.RefComesBackExactlyWhen | src/lib/declared.ts:51-61 | a ref put on a record comes back from it exactly when the label does not suggest what it assigns and, where it assigns nothing, nothing was chosen over the label |
| DeclaredLaws.ChosenOutlivesLoad | src/lib/declared.ts:144-154 | an application chosen over a label outlives the loading of a workspace that says nothing about the record |
| DeclaredLaws.DeclaredRefsAre | src/lib/declared.ts:67-85 | the refs of a reduced model: each found record's own, else what was remembered if it says something |
| DeclaredLaws.ReloadUndoesReduce | src/lib/declared.ts:161-175 | reduce then reload gives back every list, typed records first, and the refs of what is not held |
| DeclaredLaws.TypedAndFound | src/lib/declared.ts:73-83 | typed and found records together are the list: nothing is lost or doubled |
| DeclaredLaws.ToDeclaredIsIdempotent | src/lib/declared.ts:63-126 | reducing twice is reducing once, and the second strips and drops nothing |
| Statements.PollKeepsStatements | src/lib/discovered.ts:112-120 | a poll keeps what is stated about every id and lets no ref coexist with a held record |
| Statements.ReduceKeepsStatement | src/lib/declared.ts:67-85 | reducing moves each statement from the record into a ref |
| Statements.ReloadKeepsStatement | src/lib/declared.ts:161-175 | a reload moves each statement of a held record back from its ref |
| Statements.StepKeepsStatements | src/lib/discovered.ts:152-182 | every step keeps all statements but the one it makes |
| Statements.StatementsSurvive | src/lib/declared.ts:145-175 | after any run of polls, reductions, reloads and edits what is stated about an id is the last thing said about it |
| DeclaredLaws.LoadIs | src/lib/declared.ts:161-175 | loading any workspace over what is held: its own records, then the found ones held under its refs, and the refs of what is not held |
| Workspaces.LoadSaysWhatTheWorkspaceSays | src/lib/declared.ts:156-175 | whatever is held by then, a loaded workspace says about every id what it says, except that a typed record held as found falls silent |
| Workspaces.LoadIsWellKeptExactlyWhen | src/lib/declared.ts:161-175 | a load leaves every id held once, and no ref beside a held record, exactly when the workspace types no record that is held as found |
| Workspaces.NothingIsLostInAnyRun | src/lib/declared.ts:63-67 | in any run of polls, edits, saves and loads of a workspace saved at any earlier time, what is stated, here and in the workspace, is the last thing said, loading going back to what was saved, if no load clashes |
| Workspaces.RunIsSoundExactlyWhen | src/lib/declared.ts:156-175 | a run keeps everything well kept at every step exactly when no load in it clashes |
| Workspaces.TypedAndReportedIsHeldTwice | src/lib/declared.ts:164-172 | a cluster people typed is saved, then reported under its id, then loaded: it is held twice, and what was said of its site is lost |
| Effective.SaveField | src/lib/effective.ts:50-66 | one field of an edited copy: carried over with its attribution, dropped, or overridden afresh |
| Effective.ApplyEdit | src/lib/effective.ts:45-72 | the loop over the fields of an edited copy |
| Effective.TypedEditIsTheCopy | src/lib/effective.ts:46 | a typed, imported or new entity is the edited copy, key by key, without overrides or attributions |
| Effective.DetectedStays | src/lib/effective.ts:47-71 | of a detected entity the detected values stay, and bookkeeping or what the copy leaves out is never overridden |
| Effective.AttributionsAreEarned | src/lib/effective.ts:54-65 | an attribution is of this save, on a value that moved in it, or it was there before and its value did not move |
| Effective.MovedUnsignedIsNobodys | src/lib/effective.ts:64-65 | a value that moved in a save without a name is attributed to nobody |
| Effective.EditRoundTripExactlyWhen | src/lib/effective.ts:45-72 | everyone sees the edited copy on every key that is not bookkeeping, exactly when it leaves no detected value out |
| Effective.UntouchedIsCarried | src/lib/effective.ts:54-62 | an untouched override is carried verbatim, attribution included, even when it equals the detected value |
| Effective.MovedDiffersFromBase | src/lib/effective.ts:63-65 | a moved field is overridden exactly when it differs from the detected value, and is then newly attributed |
| Effective.ConfirmedStays | src/lib/effective.ts:80-87 | confirming moves nothing shown, and later saves that leave the field alone keep value and attribution |
| Effective.ConfirmedAlone | src/lib/effective.ts:80-87 | confirming one field leaves every other override and attribution as it was |
| ShownValues.EditStaysShown | src/lib/discovered.ts:155-165 | after an edit and any number of polls the record is held, overridden fields show the edit, and the others, application and site included, what is detected or assigned by then |
| Migrate.NormalizeIsWhole | src/lib/migrate.ts:79-128 | after one repair every reference and every dependency end resolves |
| Migrate.OnePassIsEnough | src/lib/migrate.ts:83-128 | a second repair changes nothing, and the first changes nothing exactly when the model was whole |
| Migrate.DroppedOnlyForItsOwnReference | src/lib/migrate.ts:66-109 | a link, node, namespace, service or dependency is dropped exactly when a reference it needs is missing; a namespace or service that is kept changes only in optional references |
| MigrateKeeps.PlacedRecordsStay | src/lib/migrate.ts:90-102 | every node, namespace and service whose cluster exists stays, in order, a service with exactly its nodes that exist and its application if that does |
| MigrateKeeps.LinksStay | src/lib/migrate.ts:66-87 | every site link between two sites and every dependency both of whose ends are there stays, in order, and no other |
| MigrateKeeps.IndependentRecordsStay | src/lib/migrate.ts:88-110 | clusters, devices and agents stay in place, each reference as it was if it resolves and cleared if not |
| History.HistoryView.View | src/store/history.ts:49-51 | asking takes a new ticket and shows loading |
| History.HistoryView.Arrived | src/store/history.ts:53-56 | an answer is shown only while its ticket is the newest |
| History.HistoryView.Failed | src/store/history.ts:57-60 | a failure is shown only while its ticket is the newest |
| History.HistoryView.BackToLive | src/store/history.ts:64-67 | returning to live outdates every ticket |
| History.LoadingIsNewestPending | src/store/history.ts:49-67 | in every run, loading holds exactly while the newest ticket's request is in flight |
| History.ShownWasAskedSinceLive | src/store/history.ts:31-68 | in every run, the moment shown answers a request made after the last return to live, and nothing asked before it was answered later over it |
| History.NewestAnswerIsShown | src/store/history.ts:49-56 | the answer to the newest request is shown, with nothing loading or failed, until something else is asked for or the person returns to live |
| History.NewestFailureIsShown | src/store/history.ts:57-60 | its failure is shown likewise, beside what was shown before |
| History.LiveIsLive | src/store/history.ts:64-67 | after a return to live nothing recorded is shown, whatever is answered late, until something is asked for |
| Settings.SettingsStore.Arrived | src/store/settings.ts:31-33 | an answer is adopted only in the epoch its request began in |
| Settings.SettingsStore.SaveRefused | src/store/settings.ts:48-57 | a refused save adopts the document it got, or reads it again |
| Settings.SettingsStore.SaveResumed | src/store/settings.ts:57-61 | after that reading, the conflict is told only in the save's own epoch |
| Settings.SettingsStore.ClearAll | src/store/settings.ts:67-70 | clearing starts a new epoch with nothing loaded |
| Settings.LoadedAnswersSinceClear | src/store/settings.ts:20-71 | in every run, settings marked loaded answer a request begun after the last clear, both conflict paths included |
| Settings.ReplyIsShown | src/store/settings.ts:28-65 | in every run, a reply to a call begun since the last clear is shown until the next reply or clear: its document, its message, or the conflict |
| Settings.RefusedSaveReadsAgain | src/store/settings.ts:55-57 | a refused save whose document did not come through reads it again |
| Settings.ReloadReturns | src/store/settings.ts:56-59 | and goes on once that came back or failed |
| Settings.ClearedStaysClear | src/store/settings.ts:67-70 | once cleared nothing is shown, whatever is answered late, until something is asked for |
| Server.ServerStore.RefreshState | src/store/server.ts:599-606 | a caller gets the request in flight for its own connection or a new one, or nothing without a connection |
| Server.ServerStore.StateArrived | src/store/server.ts:608-614 | an answer is held only when its connection is still the current one |
| Server.ServerStore.SessionEnded | src/store/server.ts:625-630 | an ended session clears organisation and state, but not info |
| Server.ServerStore.Finally | src/store/server.ts:643-649 | a finished request clears the slot only when the slot is its own |
| Server.ServerStore.EnterOrganisation | src/store/server.ts:158-178 | a switch after the old workspace stopped |
| Server.ServerStore.InfoArrived | src/store/server.ts:179-180 | an organisation's info is written when it arrives |
| Server.ServerStore.WorkspaceStarted | src/store/server.ts:181-182 | a switch ends by asking for the state |
| Server.ServerStore.ReloadInfo | src/store/server.ts:582-584 | a page asks for the info of the connection it has, or for nothing without one |
| Server.ServerStore.InfoReloaded | src/store/server.ts:585-586 | the answer is written whichever organisation is in use by then |
| Server.ServerStore.FinishSignOut | src/store/server.ts:416-429 | signing out clears everything of the organisation |
| Server.ServerStore.DisconnectNow | src/store/server.ts:573-580 | so does disconnecting |
| ServerLaws.NoStalePicture | src/store/server.ts:599-652 | in every run of switches, sign-outs, disconnects and answers, a held state was fetched for the organisation in use |
| ServerShown.AnswerIsHeldExactlyWhen | src/store/server.ts:608-615 | an answer for the present connection is held, and any other changes nothing that is shown |
| ServerShown.AnswerStaysHeld | src/store/server.ts:608-615 | in every run, what was answered for the organisation in use is held until that organisation is left |
| ServerShown.EnteringClears | src/store/server.ts:158-178 | entering an organisation of the person's puts it in use, any other leaves none in use and the connection up; what was held is gone either way |
| ServerShown.SwitchShowsItsOrganisation | src/store/server.ts:156-184 | in every run, a switch that is not overtaken ends connected to its organisation with its info |
| ServerShown.SignedOutUntilSignIn | src/store/server.ts:416-429 | in every run, after signing out, disconnecting or an ended session nobody is signed in and nothing is held, whatever comes late, before a new sign-in |
| ServerShown.RefreshAsks | src/store/server.ts:599-606 | a refresh with somebody signed in and a connection has a request for that connection in flight afterwards |
| ServerShown.RequestsNeedAConnection | src/store/server.ts:223 | state is asked for only with somebody signed in, and both requests only for the organisation in use of a connection that is complete |
| ServerLaws.SlotStaysLive | src/store/server.ts:604-606 | in every run, the slot holds a request in flight for the connection recorded beside it |
| ServerLaws.SharedIsOwn | src/store/server.ts:603-604 | a request handed to a second caller is in flight and of that caller's connection |
| ServerLaws.OlderNeverFreesNewer | src/store/server.ts:643-649 | however many older requests finish, a newer one in flight keeps the slot |
| ServerLaws.OneRequestPerSwitch | src/store/server.ts:599-652 | at most one request is in flight plus one for every change of organisation made while one was in the slot; in one organisation at most one |
| ServerLaws.OneOrganisationOneRequest | src/store/server.ts:599-606 | an ordinary session in one organisation has a request in flight and no such change |
| ServerLaws.OneSwitchTwoRequests | src/store/server.ts:599-606 | the bound is reached: a switch under a request in flight leaves two |
| ServerLaws.InfoStaysInUseExactlyWhen | src/store/server.ts:178-180 | a step makes the info another organisation's exactly when it writes the outdated answer of a switch or of a page's inquiry, or ends the session while one is held |
| ServerLaws.InfoIsAlwaysInUseExactlyWhen | src/store/server.ts:156-184 | a run shows at every step only the info of the organisation in use exactly when none of these ever happens |
| ServerLaws.LateInquiryShowsOldInfo | src/store/server.ts:582-590 | a page's inquiry, answered after a whole switch, ends with the old info though no switch was overtaken and no session ended |
| ServerLaws.OverlappingSwitchesShowOldInfo | src/store/server.ts:156-184 | two overlapping switches end with the first one's info beside the second one's organisation |
| SettingsInUse.StaysInOrderExactlyWhen | src/store/server.ts:171-183 | a step leaves another organisation's settings loaded or on their way exactly when an overtaken switch asks for its own, or a session ends while some are loaded or asked for |
| SettingsInUse.SettingsAreInUseExactlyWhen | src/store/server.ts:156-184 | over any run of both stores, settings loaded or on their way are at every step those of the organisation in use exactly when neither ever happens |
| SettingsInUse.OvertakenSwitchShowsOldSettings | src/store/server.ts:178-183 | a run of two overlapping switches that ends with the first one's settings marked loaded in the second organisation |
| Install.CombinedScope | src/lib/install.ts:120-137 | the loop over candidate namespaces computes the combined scope |
| Install.EnabledAre | src/lib/install.ts:120-122 | every application signal that is on counts, and no other |
| Install.NothingIsCutOff | src/lib/install.ts:112-137 | what some signal keeps, namespace and workload, exclude winning, the combined scope keeps |
| Install.ListedNamesAreSomeones | src/lib/install.ts:129-135 | every workload name it lists is in the list of a signal that collects there |
| Install.NamespacesAreExactExactlyWhen | src/lib/install.ts:123-126 | a namespace is kept exactly when some signal keeps it, if and only if it is not excluded by every signal that lists it while another signal does not exclude it |
| Install.WorkloadsAreExactExactlyWhen | src/lib/install.ts:127-135 | all workloads of a namespace are kept exactly as some signal keeps them, if and only if none of them is there for nobody, in terms of the lists of the signals |
| Install.OneStyleIsExact | src/lib/install.ts:123-135 | when all signals include or all exclude, namespaces and workloads are the union of what they keep |
| Install.MuddledListsKeepMore | src/lib/install.ts:131 | a signal that lists and excludes one namespace widens it to workloads nobody keeps |
| Install.MixedListsKeepMore | src/lib/install.ts:123-126 | mixed lists can keep a namespace that no signal keeps |
| SelfHealth.Log10 | src/lib/selfHealth.ts:142 | the whole part of the decimal logarithm: between that power of ten and the next |
| SelfHealth.NiceStepIsNice | src/lib/selfHealth.ts:141-145 | the step is 1, 2, 5 or 10 times a power of ten and not below the raw step |
| SelfHealth.NiceStepIsLeast | src/lib/selfHealth.ts:141-145 | no nice number from the raw step on is smaller than the step |
| SelfHealth.NiceDomain | src/lib/selfHealth.ts:131-153 | the axis contains the data with less than a step to spare, is not negative for data that is not, and has between 2 and one more ticks than asked for, from end to end, the least nice step apart that covers the range |
| SelfHealth.PushTicks | src/lib/selfHealth.ts:150-151 | the tick loop ends, having pushed every multiple of the step from one end to the other |
| Csv.FieldReadsBack | src/lib/csv.ts:12-16 | a printed field reads back as the cell's text after the apostrophe rule, for all strings |
| Csv.NoTextIsEvaluated | src/lib/csv.ts:12-16 | a number reads back as printed, and text as it was, with an apostrophe in front exactly when a spreadsheet would evaluate it; no text is evaluated |
| Csv.CsvRoundTrip | src/lib/csv.ts:18-22 | a printed table reads back as its header row and every row |
| Csv.RowsComeBackExactlyWhen | src/lib/csv.ts:19-22 | cell by cell exactly as it was if and only if no row, the header included, is without cells |

## Left out

- Text: reasons, notes, fixes, labels and fact rows of the judgement, and with them `oldest`, `aged` and `margin`.
- Floating point: rounding, NaN and the finiteness test of a fact; amounts are exact reals and Infinity is a case of its own.
- Times are integers and already parsed; an unparsable observation time is an absent one.
- The order in which targets and combined scope lists are shown: sorting by name and by locale. Targets keep the order of the clusters, scope lists the order of first mention.
- What makes a cluster live: the state of its observation is a given flag; so are deletion marks.
- The verdict whether a workload is free to move at all (src/lib/movability.ts:106-190).
- Hostname selectors: they are dropped before matching, as in the code, so nothing is claimed about them.
- TargetExactness.FitsIsExact: an unreported topology zone is a definite "no" in the code and in every world.
- TargetExactness.TargetAges: says nothing about confidence, which is not monotone because parts that become "can't tell" stop counting for a "fits".
- SelfHealth.NiceDomain: requires an ordered range when both ends are finite; for a reversed one the code's logarithm has no meaning in exact arithmetic.
- ObservedLaws.OverlaidIsStable: assumes ids that are not empty and observed endpoints with distinct ids.
- The key of an outside address is a pair instead of the string `host:port`; the string tells all pairs apart, as no port contains a colon.
- DiscoveredLaws.PollIsFixpoint: assumes distinct agent ids in one document, a generation time, and reports without the locally owned keys.
- Statements.StatementsSurvive: leaves out the application assignment, which hints can change (`PollOutcome` and `DeclaredLaws.RefComesBackExactlyWhen` say how), and the attribution of overrides, which a poll does not carry; ids are unique across kinds.
- Discovered.MergeDiscovered: object identity is a "changed" answer per list, and the fields of agents and suggestions are values of one abstract kind.
- Effective.ApplyEdit: the comparison of serialised values is equality of values.
- Migrate.NormalizeIsWhole: the upgrade of older documents before the repair.
- Server.ServerStore.EnterOrganisation: the stores cleared by a switch other than the settings, owner marks in the browser's storage, and the server address, which is fixed.
- Timers, polling intervals, the wording of errors, sign-in screens, user interface code, and the request layer: any request may be answered or fail at any time.

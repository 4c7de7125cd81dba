/** The bridge's driver in `src/index.js`: `handleTaskCreation` (expand, strip the tag, add the
    subtasks), one processing round per fetched update list, and the polling loop's state
    `lastChecked` and `loopCount`. */
module Sync {
  import opened Wrappers
  import opened Tasks
  import opened OpenAI
  import opened Tags
  import opened Subtasks
  import opened Placeholders

  // ---------------------------------------------------------------------------
  // handleTaskCreation

  /** The hint captures the decomposition requests read hold no `$` (see `Hints`). */
  predicate DollarFreeExpansions(updates: seq<Task>) {
    forall t :: t in ExpandableTasks(updates) && t.content.Some? ==> LiteralCaptures(t.content.value)
  }

  /** Every task of `ts` has a tags list and, if it has content, `$`-free hint captures. */
  predicate Expansible(ts: seq<Task>) {
    forall i :: 0 <= i < |ts| ==> ts[i].tags.Some? && (ts[i].content.Some? ==> LiteralCaptures(ts[i].content.value))
  }

  lemma ExpandableAreExpansible(updates: seq<Task>)
    requires DollarFreeExpansions(updates)
    ensures Expansible(ExpandableTasks(updates))
  {
    var e := ExpandableTasks(updates);
    forall i | 0 <= i < |e| ensures e[i].tags.Some? {
      assert e[i] in e;
    }
  }

  /** `expandableUpdates.map(it => expandTasksIntoAtomicTasks(it, getExpandedNumberFromTags(it.tags)))`:
      the i-th task makes the i-th decomposition call. */
  function ExpandCalls(ts: seq<Task>, sv: Services): (r: seq<Result<seq<Descriptor>, string>>)
    requires Expansible(ts)
    ensures |r| == |ts|
    ensures forall i :: 0 <= i < |ts| ==>
              r[i] == ExpandTask(ts[i].title, ts[i].content, sv.expandCount(ts[i].tags.value), i, sv)
    ensures AllOk(r) <==> forall t :: t in ts ==> t.content.Some?
  {
    seq(|ts|, i requires 0 <= i < |ts| => ExpandTask(ts[i].title, ts[i].content, sv.expandCount(ts[i].tags.value), i, sv))
  }

  /** `Promise.all` resolves when every promise does. */
  predicate AllOk(rs: seq<Result<seq<Descriptor>, string>>) {
    forall i :: 0 <= i < |rs| ==> rs[i].Ok?
  }

  function Values(rs: seq<Result<seq<Descriptor>, string>>): (r: seq<seq<Descriptor>>)
    requires AllOk(rs)
    ensures |r| == |rs| && forall i :: 0 <= i < |rs| ==> Ok(r[i]) == rs[i]
  {
    seq(|rs|, i requires 0 <= i < |rs| => rs[i].value)
  }

  /** The tag-stripped records `removeTags` resolves to, in order. */
  function StrippedAll(ts: seq<Task>): (r: seq<Task>)
    requires forall i :: 0 <= i < |ts| ==> ts[i].tags.Some?
    ensures |r| == |ts| && forall i :: 0 <= i < |ts| ==> r[i] == StripExpand(ts[i])
  {
    seq(|ts|, i requires 0 <= i < |ts| => StripExpand(ts[i]))
  }

  /** One `{update: [modifiedTask]}` post per stripped task. */
  function StripWrites(stripped: seq<Task>): (r: seq<Write>)
    ensures |r| == |stripped| && forall i :: 0 <= i < |r| ==> r[i] == UpdateTasks([stripped[i]])
  {
    seq(|stripped|, i requires 0 <= i < |stripped| => UpdateTasks([stripped[i]]))
  }

  predicate StripsAccepted(stripped: seq<Task>, sv: Services) {
    forall i :: 0 <= i < |stripped| ==> sv.acceptUpdate([stripped[i]])
  }

  /** The writes of several calls, in call order, and whether all of them resolved. */
  function Join(os: seq<Outcome>): (o: Outcome)
    ensures o.ok <==> forall i :: 0 <= i < |os| ==> os[i].ok
    ensures forall w :: w in o.writes <==> exists i :: 0 <= i < |os| && w in os[i].writes
  {
    if os == [] then Outcome([], true)
    else
      var rest := Join(os[1..]);
      assert forall i :: 1 <= i < |os| ==> os[i] == os[1..][i - 1];
      Outcome(os[0].writes + rest.writes, os[0].ok && rest.ok)
  }

  /** `createSubTasks(savedTagless, newTasks)`: the i-th stripped record, its `projectId` split
      off, gets the i-th list of descriptors; `clock(i)` is that call's `addingDate`. */
  function CreateSubTasks(stripped: seq<Task>, descriptors: seq<seq<Descriptor>>, sv: Services): (os: seq<Outcome>)
    requires |descriptors| == |stripped|
    ensures |os| == |stripped|
    ensures forall i :: 0 <= i < |os| ==>
              os[i] == AddSubtasks(stripped[i], stripped[i].projectId, descriptors[i], sv.clock(i), sv)
  {
    seq(|stripped|, i requires 0 <= i < |stripped| =>
      AddSubtasks(stripped[i], stripped[i].projectId, descriptors[i], sv.clock(i), sv))
  }

  /** `removeTagsAndAddSubTasks(tasks, newTasks)`: all tag-stripping posts go out, and only
      when all of them succeeded are the subtasks added under the stripped records. */
  function RemoveTagsAndAddSubTasks(e: seq<Task>, descriptors: seq<seq<Descriptor>>, sv: Services): (o: Outcome)
    requires forall i :: 0 <= i < |e| ==> e[i].tags.Some?
    requires |descriptors| == |e|
    ensures |e| <= |o.writes| && o.writes[..|e|] == StripWrites(StrippedAll(e))
    ensures !StripsAccepted(StrippedAll(e), sv) ==> o == Outcome(StripWrites(StrippedAll(e)), false)
    ensures StripsAccepted(StrippedAll(e), sv) ==>
              var created := Join(CreateSubTasks(StrippedAll(e), descriptors, sv));
              o.writes == StripWrites(StrippedAll(e)) + created.writes && o.ok == created.ok
  {
    var stripped := StrippedAll(e);
    var sw := StripWrites(stripped);
    if !StripsAccepted(stripped, sv) then Outcome(sw, false)
    else
      var created := Join(CreateSubTasks(stripped, descriptors, sv));
      assert (sw + created.writes)[..|e|] == sw;
      Outcome(sw + created.writes, created.ok)
  }

  /** Only update writes come out of a fan-out whose strips were not all accepted. */
  lemma RejectedStripsOnlyUpdate(e: seq<Task>, descriptors: seq<seq<Descriptor>>, sv: Services)
    requires forall i :: 0 <= i < |e| ==> e[i].tags.Some?
    requires |descriptors| == |e|
    ensures (exists w :: w in RemoveTagsAndAddSubTasks(e, descriptors, sv).writes && !w.UpdateTasks?)
            ==> StripsAccepted(StrippedAll(e), sv)
  {
    if !StripsAccepted(StrippedAll(e), sv) {
      var sw := StripWrites(StrippedAll(e));
      assert forall w :: w in sw ==> w.UpdateTasks?;
    }
  }

  /** `handleTaskCreation(updates)`. Every decomposition must resolve before any write; then
      the tags are stripped and the subtasks added. */
  function HandleTaskCreation(updates: seq<Task>, sv: Services): (o: Outcome)
    requires DollarFreeExpansions(updates)
    ensures ExpandableTasks(updates) == [] ==> o == Outcome([], true)
    ensures (exists t :: t in ExpandableTasks(updates) && t.content.None?) ==> o == Outcome([], false)
    ensures o.writes != [] ==>
              var e := ExpandableTasks(updates);
              |e| <= |o.writes| && o.writes[..|e|] == StripWrites(StrippedAll(e))
    ensures (exists w :: w in o.writes && !w.UpdateTasks?) ==> StripsAccepted(StrippedAll(ExpandableTasks(updates)), sv)
    ensures o.ok && ExpandableTasks(updates) != [] ==> StripsAccepted(StrippedAll(ExpandableTasks(updates)), sv)
  {
    var e := ExpandableTasks(updates);
    ExpandableAreExpansible(updates);
    if e == [] then Outcome([], true)
    else
      var rs := ExpandCalls(e, sv);
      if !AllOk(rs) then Outcome([], false)
      else
        RejectedStripsOnlyUpdate(e, Values(rs), sv);
        RemoveTagsAndAddSubTasks(e, Values(rs), sv)
  }

  /** When every decomposition resolved, the round is the fan-out of their results over the
      expandable tasks, in order. */
  lemma ResolvedExpansionsFanOut(updates: seq<Task>, sv: Services)
    requires DollarFreeExpansions(updates)
    ensures var e := ExpandableTasks(updates);
            Expansible(e) && (e != [] && AllOk(ExpandCalls(e, sv)) ==>
                              HandleTaskCreation(updates, sv) == RemoveTagsAndAddSubTasks(e, Values(ExpandCalls(e, sv)), sv))
  {
    ExpandableAreExpansible(updates);
  }

  /** Every record added by one of `writes` hangs under one of the tasks `e`, in its project. */
  ghost predicate AddsUnder(writes: seq<Write>, e: seq<Task>) {
    forall w, r :: (w in writes && w.AddTasks? && r in w.records) ==> UnderOneOf(r, e)
  }

  /** The record hangs under one of the tasks `e`, in that task's project. */
  ghost predicate UnderOneOf(r: NewTask, e: seq<Task>) {
    exists t :: t in e && r.parentId == t.id && r.projectId == t.projectId
  }

  /** Each subtask added hangs under a task of the update list, in that task's project. */
  lemma SubtasksUnderExpandable(updates: seq<Task>, sv: Services)
    requires DollarFreeExpansions(updates)
    ensures AddsUnder(HandleTaskCreation(updates, sv).writes, ExpandableTasks(updates))
  {
    var e := ExpandableTasks(updates);
    ExpandableAreExpansible(updates);
    var o := HandleTaskCreation(updates, sv);
    var rs := ExpandCalls(e, sv);
    if e == [] || !AllOk(rs) {
      assert o.writes == [];
    } else {
      var stripped := StrippedAll(e);
      var sw := StripWrites(stripped);
      UpdatesAddNothing(sw, e);
      if StripsAccepted(stripped, sv) {
        var created := Join(CreateSubTasks(stripped, Values(rs), sv));
        FanOutUnder(e, Values(rs), sv);
        AddsUnderAppend(sw, created.writes, e, o.writes);
      }
    }
  }

  /** Update posts add nothing. */
  lemma UpdatesAddNothing(writes: seq<Write>, e: seq<Task>)
    requires forall i :: 0 <= i < |writes| ==> writes[i].UpdateTasks?
    ensures AddsUnder(writes, e)
  {
  }

  lemma AddsUnderAppend(a: seq<Write>, b: seq<Write>, e: seq<Task>, writes: seq<Write>)
    requires AddsUnder(a, e) && AddsUnder(b, e) && writes == a + b
    ensures AddsUnder(writes, e)
  {
    forall w, r | w in writes && w.AddTasks? && r in w.records
      ensures UnderOneOf(r, e)
    {
      assert w in a || w in b;
    }
  }

  /** The fan-out over the stripped tasks adds only under those tasks. */
  lemma FanOutUnder(e: seq<Task>, descriptors: seq<seq<Descriptor>>, sv: Services)
    requires forall i :: 0 <= i < |e| ==> e[i].tags.Some?
    requires |descriptors| == |e|
    ensures AddsUnder(Join(CreateSubTasks(StrippedAll(e), descriptors, sv)).writes, e)
  {
    var stripped := StrippedAll(e);
    forall w, r | w in Join(CreateSubTasks(stripped, descriptors, sv)).writes && w.AddTasks? && r in w.records
      ensures UnderOneOf(r, e)
    {
      AddedUnderSome(stripped, descriptors, sv, w, r);
      var k :| 0 <= k < |stripped| && r.parentId == stripped[k].id && r.projectId == stripped[k].projectId;
      var t := StrippedKeepsIds(e, k);
    }
  }

  /** Stripping keeps a task's id and project. */
  lemma StrippedKeepsIds(e: seq<Task>, k: nat) returns (t: Task)
    requires forall i :: 0 <= i < |e| ==> e[i].tags.Some?
    requires k < |e|
    ensures t in e && StrippedAll(e)[k].id == t.id && StrippedAll(e)[k].projectId == t.projectId
  {
    t := e[k];
    assert StrippedAll(e)[k] == StripExpand(t);
  }

  lemma AddedUnderSome(stripped: seq<Task>, descriptors: seq<seq<Descriptor>>, sv: Services, w: Write, r: NewTask)
    requires |descriptors| == |stripped|
    requires w in Join(CreateSubTasks(stripped, descriptors, sv)).writes && w.AddTasks? && r in w.records
    ensures exists k :: 0 <= k < |stripped| && r.parentId == stripped[k].id && r.projectId == stripped[k].projectId
  {
    var os := CreateSubTasks(stripped, descriptors, sv);
    var k :| 0 <= k < |os| && w in os[k].writes;
    AddedUnderParent(stripped[k], stripped[k].projectId, descriptors[k], sv.clock(k), sv);
  }

  // ---------------------------------------------------------------------------
  // One processing round

  /** What a round over a non-empty update list needs for the modelled replacements to be the
      source's: no `ai{{}}` to spin on, no `$` in the replies or in expanded contents. */
  ghost predicate Processable(update: seq<Task>, sv: Services) {
    Scannable(update)
    && (forall i: nat, p: string :: LiteralReply(sv.complete(i, p)))
    && DollarFreeExpansions(update)
  }

  /** `await handleTaskCreation(update); await replaceDescriptionWithAi(update)`: substitution
      starts only after expansion has resolved, and not at all when it rejected. */
  function ProcessUpdate(update: seq<Task>, sv: Services): (o: Outcome)
    requires Processable(update, sv)
    ensures !HandleTaskCreation(update, sv).ok ==> o == HandleTaskCreation(update, sv)
    ensures HandleTaskCreation(update, sv).ok ==>
              o.writes == HandleTaskCreation(update, sv).writes + ReplaceDescriptionWithAi(update, sv).writes
              && o.ok == ReplaceDescriptionWithAi(update, sv).ok
  {
    var h := HandleTaskCreation(update, sv);
    if !h.ok then h
    else
      var r := ReplaceDescriptionWithAi(update, sv);
      Outcome(h.writes + r.writes, r.ok)
  }

  /** The substitution writes back the fetched snapshot with new content, so a task that
      carried both an `expand` tag and a prompt gets its `expand` tag back in the same round,
      after expansion has stripped it. */
  lemma SubstitutionRestoresExpandTag(update: seq<Task>, sv: Services, i: nat)
    requires Processable(update, sv) && i < |update|
    requires IsExpandable(update[i]) && AllPrompts(update) != []
    requires var prompts := AllPrompts(update);
             Rewrite(update[i], ResponseMap(prompts, Responses(prompts, sv))).content
               != OriginalContent(update, update[i].id)
    requires HandleTaskCreation(update, sv).ok
    ensures exists w, t :: w in ProcessUpdate(update, sv).writes && w.UpdateTasks? && t in w.tasks
                           && t.id == update[i].id && IsExpandable(t)
  {
    var prompts := AllPrompts(update);
    var t := Rewrite(update[i], ResponseMap(prompts, Responses(prompts, sv)));
    var w := ChangedWrittenBack(update, sv, i);
    var o := ProcessUpdate(update, sv);
    assert o.writes == HandleTaskCreation(update, sv).writes + [w];
    InRightOperand(HandleTaskCreation(update, sv).writes, [w], w);
    assert t.id == update[i].id && t.tags == update[i].tags;
    var tag :| tag in update[i].tags.value && HasExpand(tag);
    assert IsExpandable(t);
  }

  // ---------------------------------------------------------------------------
  // The polling loop

  /** What `getUpdatesSince` gave: a rejection, or data whose `syncTaskBean` may be missing
      (the destructuring throws before `lastChecked` is assigned) and whose `update` may be
      missing (`update.length` throws after it). */
  datatype FetchReply =
    | FetchFailed
    | Fetched(checkPoint: int, bean: Option<Option<seq<Task>>>)

  ghost predicate ReplyProcessable(reply: FetchReply, sv: Services) {
    reply.Fetched? && reply.bean.Some? && reply.bean.value.Some? ==> Processable(reply.bean.value.value, sv)
  }

  /** The effect of one cycle: the checkpoint it adopted, if it got that far, the writes it
      issued, and whether it reset `loopCount` (an error, or a non-empty update). */
  datatype Cycle = Cycle(checkpoint: Option<int>, writes: seq<Write>, reset: bool)

  function CycleOf(reply: FetchReply, sv: Services): (c: Cycle)
    requires ReplyProcessable(reply, sv)
    ensures c.checkpoint.Some? <==> reply.Fetched? && reply.bean.Some?
    ensures c.checkpoint.Some? ==> c.checkpoint.value == reply.checkPoint
    ensures !c.reset <==> reply.Fetched? && reply.bean == Some(Some([]))
    ensures c.writes != [] ==> reply.Fetched? && reply.bean.Some? && reply.bean.value.Some? && reply.bean.value.value != []
  {
    match reply
    case FetchFailed => Cycle(None, [], true)
    case Fetched(cp, bean) =>
      match bean
      case None => Cycle(None, [], true)
      case Some(None) => Cycle(Some(cp), [], true)
      case Some(Some(update)) =>
        if |update| == 0 then Cycle(Some(cp), [], false)
        else Cycle(Some(cp), ProcessUpdate(update, sv).writes, true)
  }

  /** The checkpoint is adopted right after the fetch, so a round whose processing rejects
      does not roll it back. */
  lemma FailedRoundKeepsCheckpoint(cp: int, update: seq<Task>, sv: Services)
    requires Processable(update, sv) && update != [] && !ProcessUpdate(update, sv).ok
    ensures CycleOf(Fetched(cp, Some(Some(update))), sv).checkpoint == Some(cp)
    ensures CycleOf(Fetched(cp, Some(Some(update))), sv).writes == ProcessUpdate(update, sv).writes
  {
    assert CycleOf(Fetched(cp, Some(Some(update))), sv) == Cycle(Some(cp), ProcessUpdate(update, sv).writes, true);
  }

  /** Every cycle of a run gets a reply its round can process. */
  ghost predicate Runnable(replies: seq<FetchReply>, svs: seq<Services>) {
    |replies| == |svs| && forall i :: 0 <= i < |replies| ==> ReplyProcessable(replies[i], svs[i])
  }

  /** The effects of the cycles of a run, the i-th fetch getting `replies[i]` and the i-th
      round's services being `svs[i]`. */
  function Cycles(replies: seq<FetchReply>, svs: seq<Services>): (cs: seq<Cycle>)
    requires Runnable(replies, svs)
    ensures |cs| == |replies| && forall i :: 0 <= i < |cs| ==> cs[i] == CycleOf(replies[i], svs[i])
  {
    seq(|replies|, i requires 0 <= i < |replies| && Runnable(replies, svs) => CycleOf(replies[i], svs[i]))
  }

  /** `lastChecked` after the first `n` cycles, starting from `start`. */
  function CheckedAfter(start: int, cs: seq<Cycle>, n: nat): int
    requires n <= |cs|
  {
    if n == 0 then start else cs[n - 1].checkpoint.GetOr(CheckedAfter(start, cs, n - 1))
  }

  /** `loopCount` after the first `n` cycles, starting from `count`. */
  function CountAfter(count: nat, cs: seq<Cycle>, n: nat): nat
    requires n <= |cs|
  {
    if n == 0 then count else if cs[n - 1].reset then 0 else CountAfter(count, cs, n - 1) + 1
  }

  /** The writes issued by the end of the first `n` cycles, after `before`. */
  function WritesAfter(before: seq<Write>, cs: seq<Cycle>, n: nat): (r: seq<Write>)
    requires n <= |cs|
    ensures |before| <= |r| && r[..|before|] == before
  {
    if n == 0 then before else WritesAfter(before, cs, n - 1) + cs[n - 1].writes
  }

  /** The `dateTime` of each of the first `n` fetches: a fetch asks for `lastChecked` as the
      cycles before it left it. */
  function RequestsAfter(start: int, cs: seq<Cycle>, n: nat): (r: seq<int>)
    requires n <= |cs|
    ensures |r| == n && forall i :: 0 <= i < n ==> r[i] == CheckedAfter(start, cs, i)
  {
    if n == 0 then [] else RequestsAfter(start, cs, n - 1) + [CheckedAfter(start, cs, n - 1)]
  }

  /** Logging the `i`-th fetch extends the log of the first `i`. */
  lemma RequestLogged(asked: seq<int>, start: int, cs: seq<Cycle>, i: nat)
    requires i < |cs|
    ensures asked + RequestsAfter(start, cs, i) + [CheckedAfter(start, cs, i)] == asked + RequestsAfter(start, cs, i + 1)
  {
    assert RequestsAfter(start, cs, i + 1) == RequestsAfter(start, cs, i) + [CheckedAfter(start, cs, i)];
  }

  /** A fetch that failed is retried for the same `dateTime`. */
  lemma FailedFetchRetried(start: int, replies: seq<FetchReply>, svs: seq<Services>, n: nat)
    requires Runnable(replies, svs) && 0 < n < |replies| && replies[n - 1] == FetchFailed
    ensures var r := RequestsAfter(start, Cycles(replies, svs), n + 1);
            r[n] == r[n - 1]
  {
    assert Cycles(replies, svs)[n - 1].checkpoint.None?;
  }

  /** A quiet cycle: a successful fetch with an empty update list. */
  predicate Quiet(reply: FetchReply) {
    reply.Fetched? && reply.bean == Some(Some([]))
  }

  /** `loopCount` counts the quiet cycles since the last reset, or since the start when there
      was none: `k` quiet cycles add `k`. */
  lemma CountIsQuietStreak(count: nat, replies: seq<FetchReply>, svs: seq<Services>, n: nat, k: nat)
    requires Runnable(replies, svs) && k <= n <= |replies|
    requires forall i :: n - k <= i < n ==> Quiet(replies[i])
    ensures CountAfter(count, Cycles(replies, svs), n) == CountAfter(count, Cycles(replies, svs), n - k) + k
  {
    var cs := Cycles(replies, svs);
    forall i | n - k <= i < n ensures !cs[i].reset {
      assert Quiet(replies[i]);
    }
    QuietStreakAdds(count, cs, n, k);
  }

  lemma {:induction false} QuietStreakAdds(count: nat, cs: seq<Cycle>, n: nat, k: nat)
    requires k <= n <= |cs|
    requires forall i :: n - k <= i < n ==> !cs[i].reset
    ensures CountAfter(count, cs, n) == CountAfter(count, cs, n - k) + k
    decreases k
  {
    if k > 0 {
      assert !cs[n - 1].reset;
      QuietStreakAdds(count, cs, n - 1, k - 1);
    }
  }

  /** A cycle that is not quiet leaves `loopCount` at 0. */
  lemma NoisyCycleResets(count: nat, replies: seq<FetchReply>, svs: seq<Services>, n: nat)
    requires Runnable(replies, svs) && 0 < n <= |replies| && !Quiet(replies[n - 1])
    ensures CountAfter(count, Cycles(replies, svs), n) == 0
  {
    assert Cycles(replies, svs)[n - 1].reset;
  }

  /** The checkpoint only moves on a fetch that returned a `syncTaskBean`: after a run of
      failed fetches it is where it was. */
  lemma FailedFetchesKeepCheckpoint(start: int, replies: seq<FetchReply>, svs: seq<Services>, n: nat)
    requires Runnable(replies, svs) && n <= |replies|
    requires forall i :: 0 <= i < n ==> replies[i] == FetchFailed
    ensures CheckedAfter(start, Cycles(replies, svs), n) == start
  {
    var cs := Cycles(replies, svs);
    forall i | 0 <= i < n ensures cs[i].checkpoint.None? {
      assert replies[i] == FetchFailed;
    }
    NoCheckpointKeeps(start, cs, n);
  }

  lemma {:induction false} NoCheckpointKeeps(start: int, cs: seq<Cycle>, n: nat)
    requires n <= |cs| && forall i :: 0 <= i < n ==> cs[i].checkpoint.None?
    ensures CheckedAfter(start, cs, n) == start
  {
    if n > 0 {
      NoCheckpointKeeps(start, cs, n - 1);
    }
  }

  /** The loop state after `i` cycles of a run started at `start`, `count` and `before`. */
  predicate Reached(start: int, count: nat, before: seq<Write>, cs: seq<Cycle>, i: nat,
                    checked: int, loops: nat, written: seq<Write>)
  {
    && i <= |cs|
    && checked == CheckedAfter(start, cs, i)
    && loops == CountAfter(count, cs, i)
    && written == WritesAfter(before, cs, i)
  }

  /** The state after one more cycle is the state the run functions give for it. */
  lemma Advance(start: int, count: nat, before: seq<Write>, cs: seq<Cycle>, i: nat,
                checked: int, loops: nat, written: seq<Write>)
    requires i < |cs|
    requires checked == cs[i].checkpoint.GetOr(CheckedAfter(start, cs, i))
    requires loops == if cs[i].reset then 0 else CountAfter(count, cs, i) + 1
    requires written == WritesAfter(before, cs, i) + cs[i].writes
    ensures Reached(start, count, before, cs, i + 1, checked, loops, written)
  {
  }

  lemma InRightOperand<T>(a: seq<T>, b: seq<T>, x: T)
    requires x in b
    ensures x in a + b
  {
    var k :| 0 <= k < |b| && b[k] == x;
    assert (a + b)[|a| + k] == x;
  }

  /** The polling loop's state. `requests` records the `dateTime` each fetch asked for and
      `writes` every write issued; both are observations of this model, not variables of the
      source. */
  class SyncLoop {
    var lastChecked: int
    var loopCount: nat
    var requests: seq<int>
    var writes: seq<Write>

    /** `let lastChecked = Date.now(); let loopCount = 0`, with `now` the clock reading. */
    constructor(now: int)
      ensures lastChecked == now && loopCount == 0 && requests == [] && writes == []
    {
      lastChecked := now;
      loopCount := 0;
      requests := [];
      writes := [];
    }

    /** One pass of the `do` body: count the cycle, fetch since `lastChecked`, adopt the
        checkpoint, and process a non-empty update list; every error resets the count. */
    method Step(reply: FetchReply, sv: Services)
      requires ReplyProcessable(reply, sv)
      modifies this
      ensures requests == old(requests) + [old(lastChecked)]
      ensures lastChecked == CycleOf(reply, sv).checkpoint.GetOr(old(lastChecked))
      ensures loopCount == if CycleOf(reply, sv).reset then 0 else old(loopCount) + 1
      ensures writes == old(writes) + CycleOf(reply, sv).writes
    {
      loopCount := loopCount + 1;
      requests := requests + [lastChecked];
      match reply {
        case FetchFailed =>
          loopCount := 0;
        case Fetched(checkPoint, bean) =>
          if bean.None? {
            loopCount := 0;
          } else {
            lastChecked := checkPoint;
            if bean.value.None? {
              loopCount := 0;
            } else {
              var update := bean.value.value;
              if |update| > 0 {
                loopCount := 0;
                var o := ProcessUpdate(update, sv);
                writes := writes + o.writes;
                if !o.ok {
                  loopCount := 0;
                }
              }
            }
          }
      }
    }

    /** A run of cycles, the i-th fetch getting `replies[i]` and the i-th round's services
        being `svs[i]`. */
    method Run(replies: seq<FetchReply>, svs: seq<Services>)
      requires Runnable(replies, svs)
      modifies this
      ensures lastChecked == CheckedAfter(old(lastChecked), Cycles(replies, svs), |replies|)
      ensures loopCount == CountAfter(old(loopCount), Cycles(replies, svs), |replies|)
      ensures writes == WritesAfter(old(writes), Cycles(replies, svs), |replies|)
      ensures requests == old(requests) + RequestsAfter(old(lastChecked), Cycles(replies, svs), |replies|)
    {
      ghost var start, count, before, asked := lastChecked, loopCount, writes, requests;
      ghost var cs := Cycles(replies, svs);
      var i := 0;
      while i < |replies|
        invariant i <= |replies|
        invariant Reached(start, count, before, cs, i, lastChecked, loopCount, writes)
        invariant requests == asked + RequestsAfter(start, cs, i)
      {
        Track(replies[i], svs[i], start, count, before, asked, cs, i);
        i := i + 1;
      }
    }

    /** `Step` on the `i`-th cycle of a run, with the state it leads to. */
    method Track(reply: FetchReply, sv: Services, ghost start: int, ghost count: nat, ghost before: seq<Write>,
                 ghost asked: seq<int>, ghost cs: seq<Cycle>, ghost i: nat)
      requires ReplyProcessable(reply, sv) && i < |cs| && cs[i] == CycleOf(reply, sv)
      requires Reached(start, count, before, cs, i, lastChecked, loopCount, writes)
      requires requests == asked + RequestsAfter(start, cs, i)
      modifies this
      ensures Reached(start, count, before, cs, i + 1, lastChecked, loopCount, writes)
      ensures requests == asked + RequestsAfter(start, cs, i + 1)
    {
      Step(reply, sv);
      Advance(start, count, before, cs, i, lastChecked, loopCount, writes);
      RequestLogged(asked, start, cs, i);
    }
  }
}

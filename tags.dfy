/** The `expand` tag: which fetched tasks ask to be expanded (the filter in
    `handleTaskCreation`), and how the tag is stripped from them (`removeTagsByPredicate`
    and `removeTags` of the task client). */
module Tags {
  import opened Wrappers
  import opened Text
  import opened Tasks

  const ExpandKey: string := "expand"

  /** `tag => tag.includes('expand')`, the predicate the bridge strips by. */
  predicate HasExpand(tag: string) {
    Contains(tag, ExpandKey)
  }

  /** `tags && tags.some(tag => tag.includes('expand'))`. */
  predicate IsExpandable(t: Task) {
    t.tags.Some? && exists tag :: tag in t.tags.value && HasExpand(tag)
  }

  /** `updates.filter(...)` with the expandable predicate. */
  function ExpandableTasks(updates: seq<Task>): (r: seq<Task>)
    ensures |r| <= |updates|
    ensures forall t :: t in r <==> t in updates && IsExpandable(t)
    ensures forall i :: 0 <= i < |r| ==> IsExpandable(r[i])
  {
    if updates == [] then []
    else (if IsExpandable(updates[0]) then [updates[0]] else []) + ExpandableTasks(updates[1..])
  }

  /** The filter keeps the input order: filtering a concatenation concatenates the filtered
      parts. */
  lemma {:induction false} ExpandableAppend(a: seq<Task>, b: seq<Task>)
    ensures ExpandableTasks(a + b) == ExpandableTasks(a) + ExpandableTasks(b)
    decreases |a|
  {
    if a == [] {
      assert a + b == b;
    } else {
      assert (a + b)[1..] == a[1..] + b;
      ExpandableAppend(a[1..], b);
    }
  }

  /** `tags.filter(it => !pred(it))`: the tags the predicate does not hold for, in order. */
  function Unmatched(tags: seq<string>, pred: string -> bool): (r: seq<string>)
    ensures |r| <= |tags|
    ensures forall x :: x in r <==> x in tags && !pred(x)
  {
    if tags == [] then []
    else (if !pred(tags[0]) then [tags[0]] else []) + Unmatched(tags[1..], pred)
  }

  /** `filter(tags, el => listed.indexOf(el) !== -1)`: the tags that occur in `listed`, in
      order and with their repetitions. */
  function Listed(tags: seq<string>, listed: seq<string>): (r: seq<string>)
    ensures |r| <= |tags|
    ensures forall x :: x in r <==> x in tags && x in listed
  {
    if tags == [] then []
    else (if tags[0] in listed then [tags[0]] else []) + Listed(tags[1..], listed)
  }

  /** The tags `removeTags` writes: lodash's `filter` of a missing list is `[]`. */
  function ListedTags(tags: Option<seq<string>>, listed: seq<string>): (r: seq<string>)
    ensures tags.None? ==> r == []
    ensures tags.Some? ==> r == Listed(tags.value, listed)
  {
    match tags
    case None => []
    case Some(ts) => Listed(ts, listed)
  }

  /** `removeTags(task, tagsToRemove)`: despite its name the argument is the list of tags to
      KEEP. The result is a new record; the task passed in is a value and is not changed. */
  function RemoveTags(task: Task, tagsToRemove: seq<string>): (r: Task)
    ensures r == task.(tags := Some(ListedTags(task.tags, tagsToRemove)))
    ensures forall x :: x in r.tags.value ==> x in tagsToRemove
  {
    task.(tags := Some(ListedTags(task.tags, tagsToRemove)))
  }

  /** `removeTagsByPredicate(task, pred)`: computes the tags the predicate does not hold for
      and passes them on as the list to keep. It reads `task.tags.filter`, so it needs a tags
      list; every caller in the bridge passes an expandable task, which has one. */
  function RemoveTagsByPredicate(task: Task, pred: string -> bool): (r: Task)
    requires task.tags.Some?
    ensures r.tags.Some? && r == task.(tags := r.tags)
  {
    RemoveTags(task, Unmatched(task.tags.value, pred))
  }

  /** Keeping the tags listed in a list that holds exactly the tags the predicate rejects is
      filtering by the predicate. */
  lemma {:induction false} ListedIsUnmatched(tags: seq<string>, listed: seq<string>, pred: string -> bool)
    requires forall x :: x in tags ==> (x in listed <==> !pred(x))
    ensures Listed(tags, listed) == Unmatched(tags, pred)
    decreases |tags|
  {
    if tags != [] {
      assert forall x :: x in tags[1..] ==> x in tags;
      ListedIsUnmatched(tags[1..], listed, pred);
    }
  }

  /** The double inversion nets out: after stripping, the tags are exactly those the predicate
      does not hold for, in their original order and with their repetitions. */
  lemma StripKeepsUnmatched(task: Task, pred: string -> bool)
    requires task.tags.Some?
    ensures RemoveTagsByPredicate(task, pred) == task.(tags := Some(Unmatched(task.tags.value, pred)))
  {
    ListedIsUnmatched(task.tags.value, Unmatched(task.tags.value, pred), pred);
  }

  /** The stripping the bridge performs. */
  function StripExpand(task: Task): (r: Task)
    requires task.tags.Some?
    ensures r == task.(tags := Some(Unmatched(task.tags.value, HasExpand)))
    ensures !IsExpandable(r)
    ensures forall x :: x in r.tags.value <==> x in task.tags.value && !HasExpand(x)
  {
    StripKeepsUnmatched(task, HasExpand);
    RemoveTagsByPredicate(task, HasExpand)
  }

  /** Filtering by a predicate twice is filtering once. */
  lemma {:induction false} UnmatchedIdempotent(tags: seq<string>, pred: string -> bool)
    ensures Unmatched(Unmatched(tags, pred), pred) == Unmatched(tags, pred)
    decreases |tags|
  {
    if tags != [] {
      UnmatchedIdempotent(tags[1..], pred);
      var rest := Unmatched(tags[1..], pred);
      if !pred(tags[0]) {
        var once := [tags[0]] + rest;
        assert Unmatched(tags, pred) == once && once != [] && once[0] == tags[0] && once[1..] == rest;
        assert Unmatched(once, pred) == [tags[0]] + Unmatched(rest, pred);
      } else {
        assert Unmatched(tags, pred) == rest;
      }
    }
  }

  /** Stripping is idempotent: a stripped task strips to itself. */
  lemma StripIdempotent(task: Task)
    requires task.tags.Some?
    ensures StripExpand(StripExpand(task)) == StripExpand(task)
  {
    UnmatchedIdempotent(task.tags.value, HasExpand);
  }

  /** Filtering keeps the order of the tags: filtering a concatenation concatenates the
      filtered parts. */
  lemma {:induction false} UnmatchedAppend(a: seq<string>, b: seq<string>, pred: string -> bool)
    ensures Unmatched(a + b, pred) == Unmatched(a, pred) + Unmatched(b, pred)
    decreases |a|
  {
    if a == [] {
      assert a + b == b;
    } else {
      assert (a + b)[1..] == a[1..] + b;
      UnmatchedAppend(a[1..], b, pred);
    }
  }
}

/** `addSubstacksToTask` of the task client: the `add` payload built from the decomposition's
    descriptors, the parent links built from the ids the service returns, and the two posts
    in sequence. Also the round trip between the content written here and the hint parser
    that reads it when a subtask is itself expanded. */
module Subtasks {
  import opened Wrappers
  import opened Text
  import opened Tasks
  import opened OpenAI

  /** `${description}` of a descriptor field that may be missing. */
  function DescriptionText(description: Option<string>): (r: string)
    ensures description.Some? ==> r == description.value
    ensures description.None? ==> r == "undefined"
  {
    description.GetOr("undefined")
  }

  /** The content a subtask is created with. */
  function SubtaskContent(description: string, parentTitle: string): (r: string)
    ensures |r| == |description| + |parentTitle| + 29
    ensures PrefixAt(r, DescriptionKey, 0)
  {
    var r := "description: " + description + "\n\nparent_title: " + parentTitle;
    assert r[..11] == DescriptionKey;
    r
  }

  /** The `add` record for one descriptor. `parent` is the tag-stripped task with its
      `projectId` split off, which is passed separately. */
  function SubtaskRecord(parent: Task, projectId: string, d: Descriptor, addingDate: string): (r: NewTask)
    ensures r.title == d.title && r.startDate == addingDate && r.modifiedDate == addingDate
    ensures r.dueDate == (if parent.dueDate.Some? then parent.dueDate.value else addingDate)
    ensures r.projectId == projectId && r.parentId == parent.id
    ensures r.content == SubtaskContent(DescriptionText(d.description), parent.title)
  {
    NewTask(d.title, addingDate, addingDate, parent.dueDate.GetOr(addingDate), projectId, parent.id,
            SubtaskContent(DescriptionText(d.description), parent.title))
  }

  /** `substacks.map(...)`: one record per descriptor, in descriptor order, all stamped with
      the one `addingDate`. */
  function SubtaskRecords(parent: Task, projectId: string, descriptors: seq<Descriptor>, addingDate: string)
    : (r: seq<NewTask>)
    ensures |r| == |descriptors|
    ensures forall i :: 0 <= i < |r| ==> r[i] == SubtaskRecord(parent, projectId, descriptors[i], addingDate)
  {
    seq(|descriptors|, i requires 0 <= i < |descriptors| => SubtaskRecord(parent, projectId, descriptors[i], addingDate))
  }

  /** `addedTasks.map(...)`: one link per key of `id2etag`, in key order. */
  function ParentLinks(keys: seq<string>, parentId: string, projectId: string): (r: seq<Link>)
    ensures |r| == |keys|
    ensures forall i :: 0 <= i < |r| ==> r[i] == Link(keys[i], parentId, projectId)
  {
    seq(|keys|, i requires 0 <= i < |keys| => Link(keys[i], parentId, projectId))
  }

  /** `addSubstacksToTask(parent, projectId, descriptors)`, with `addingDate` the clock
      reading. The link list is posted only after the `add` post has returned its ids; a
      rejected `add` (or a reply without `id2etag`) ends the call with an error. */
  function AddSubtasks(parent: Task, projectId: string, descriptors: seq<Descriptor>, addingDate: string, sv: Services)
    : (o: Outcome)
    ensures |o.writes| >= 1 && o.writes[0] == AddTasks(SubtaskRecords(parent, projectId, descriptors, addingDate))
    ensures sv.addTasks(SubtaskRecords(parent, projectId, descriptors, addingDate)).None? ==> o == Outcome(o.writes[..1], false)
    ensures sv.addTasks(SubtaskRecords(parent, projectId, descriptors, addingDate)).Some? ==>
              var links := ParentLinks(sv.addTasks(SubtaskRecords(parent, projectId, descriptors, addingDate)).value, parent.id, projectId);
              o.writes == o.writes[..1] + [SetParents(links)] && o.ok == sv.acceptParents(links)
  {
    var records := SubtaskRecords(parent, projectId, descriptors, addingDate);
    match sv.addTasks(records)
    case None => Outcome([AddTasks(records)], false)
    case Some(keys) =>
      var links := ParentLinks(keys, parent.id, projectId);
      Outcome([AddTasks(records), SetParents(links)], sv.acceptParents(links))
  }

  /** Every record the call adds hangs under `parent`, in `projectId`. */
  lemma AddedUnderParent(parent: Task, projectId: string, descriptors: seq<Descriptor>, addingDate: string, sv: Services)
    ensures forall w, r :: (w in AddSubtasks(parent, projectId, descriptors, addingDate, sv).writes && w.AddTasks?
                           && r in w.records) ==> r.parentId == parent.id && r.projectId == projectId
  {
    var records := SubtaskRecords(parent, projectId, descriptors, addingDate);
    forall w, r | w in AddSubtasks(parent, projectId, descriptors, addingDate, sv).writes && w.AddTasks? && r in w.records
      ensures r.parentId == parent.id && r.projectId == projectId
    {
      assert w == AddTasks(records);
      var j :| 0 <= j < |records| && records[j] == r;
    }
  }

  // ---------------------------------------------------------------------------
  // The content written here, read back by the hint parser

  /** Reading back the content of a subtask: the description capture is the description
      with the separator's space and blank line around it, the parent capture the title with
      its space, and both become hints, in that order. It needs the title not to hold
      `parent_title` (else the greedy capture would stop at the title's own copy), the two
      captures to differ (else the Set would merge them) and no `$` anywhere. */
  lemma {:induction false} SubtaskContentRoundTrip(d: string, t: string)
    requires !Contains(t, TitleKey) && t != d + "\n\n"
    requires '$' !in d && '$' !in t
    ensures var s := SubtaskContent(d, t);
            '$' !in s
            && HintCaptures(s) == [" " + d + "\n\n", " " + t]
            && LiteralCaptures(s)
            && Hints(s) == ["Use " + (" " + d + "\n\n") + " to create some context for subsequent tasks",
                            "parent task was titled " + (" " + t)]
  {
    var s := SubtaskContent(d, t);
    var k := |"description: " + d + "\n\n"|;
    SubtaskContentMatch(d, t);
    var c := Captures(" " + d + "\n\n", " " + t, k);
    assert DescriptionMatch(s) == Some(c);
    assert c.description[1..] == d + "\n\n" && c.parent[1..] == t;
    assert c.description != "" && c.description != c.parent;
    var caps := HintCaptures(s);
    assert caps == [c.description, c.parent];
    CapturesDollarFree(s);
    var h := Hints(s);
    TemplatesFill();
    assert |h| == 2;
    assert h[0] == "Use " + c.description + " to create some context for subsequent tasks";
    assert h[1] == "parent task was titled " + c.parent;
    PairOf(h);
  }

  lemma PairOf(h: seq<string>)
    requires |h| == 2
    ensures h == [h[0], h[1]]
  {
  }

  /** What the first alternative captures in subtask content. */
  lemma SubtaskContentMatch(d: string, t: string)
    requires !Contains(t, TitleKey)
    requires '$' !in d && '$' !in t
    ensures var s := SubtaskContent(d, t);
            '$' !in s
            && DescriptionMatch(s) == Some(Captures(" " + d + "\n\n", " " + t, |"description: " + d + "\n\n"|))
  {
    var s := SubtaskContent(d, t);
    var head := "description: " + d + "\n\n";
    var k := |head|;
    SubtaskContentShape(d, t);
    SubtaskKeyIsLast(d, t);
    assert ParentStart(s, k) == k + 13;
  }

  /** The pieces of subtask content, by index. */
  lemma SubtaskContentShape(d: string, t: string)
    requires '$' !in d && '$' !in t
    ensures var s := SubtaskContent(d, t);
            var k := |"description: " + d + "\n\n"|;
            '$' !in s && |s| == k + 14 + |t| && |s| > 11 && s[11] == ':' && PrefixAt(s, TitleKey, k)
            && s[k + 12] == ':' && s[12..k] == " " + d + "\n\n" && s[k + 13..] == " " + t
  {
    var s := SubtaskContent(d, t);
    var head := "description: " + d + "\n\n";
    var tail := "parent_title: " + t;
    var k := |head|;
    assert s == head + tail;
    assert '$' !in head && '$' !in tail;
    assert s[11] == ':';
    assert s[k..k + 12] == TitleKey;
    assert s[k + 12] == ':';
    assert s[12..k] == head[12..];
    assert s[k + 13..] == tail[13..];
  }

  /** The separator's `parent_title` is the last one in subtask content. */
  lemma SubtaskKeyIsLast(d: string, t: string)
    requires !Contains(t, TitleKey)
    ensures var s := SubtaskContent(d, t);
            FindLast(s, TitleKey, 12, |s| - 13) == Some(|"description: " + d + "\n\n"|)
  {
    var s := SubtaskContent(d, t);
    var k := |"description: " + d + "\n\n"|;
    assert s == ("description: " + d + "\n\n") + ("parent_title: " + t);
    assert s[k..k + 12] == TitleKey;
    forall j: nat | k < j <= |s| - 13 ensures !PrefixAt(s, TitleKey, j) {
      LaterTitleKey(d, t, j);
    }
    LastUpTo(s, TitleKey, 12, |s| - 13, k);
  }

  /** No `parent_title` of the subtask content starts after the separator's own. */
  lemma LaterTitleKey(d: string, t: string, j: nat)
    requires !Contains(t, TitleKey)
    requires |"description: " + d + "\n\n"| < j
    ensures !PrefixAt(SubtaskContent(d, t), TitleKey, j)
  {
    var a := "description: " + d + "\n\nparent_title: ";
    assert a[|a| - 14..] == "parent_title: ";
    KeyNotAfterSeparator(a, t, j);
  }

  /** In a text made of a head ending in the separator and a title without `parent_title`,
      no `parent_title` starts after the separator's. */
  lemma KeyNotAfterSeparator(a: string, t: string, j: nat)
    requires |a| >= 14 && a[|a| - 14..] == "parent_title: " && |a| - 14 < j
    requires !Contains(t, TitleKey)
    ensures !PrefixAt(a + t, TitleKey, j)
  {
    var s := a + t;
    if j + 12 <= |s| {
      if j < |a| {
        var sep := a[|a| - 14..];
        assert s[j] == sep[j - (|a| - 14)];
        assert s[j..j + 12][0] == s[j];
      } else {
        assert s[j..j + 12] == t[j - |a|..j - |a| + 12];
        assert !PrefixAt(t, TitleKey, j - |a|);
      }
    }
  }
}

/** The completion-service side of `src/lib/OpenAI.js`: hint extraction, the decomposition
    request and its reply, and the inline-completion request and its reply. */
module OpenAI {
  import opened Wrappers
  import opened Text
  import opened Tasks

  // ---------------------------------------------------------------------------
  // extractParentInformationOrReturnDescription

  /** `DESCRIPTION_TEMPLATES`: "Use {} to create some context for subsequent tasks" and
      "parent task was titled {}", written around their slot. */
  const Slot: string := "{}"
  const Templates: seq<string> :=
    ["Use " + Slot + " to create some context for subsequent tasks", "parent task was titled " + Slot]
  const DescriptionKey: string := "description"
  const TitleKey: string := "parent_title"

  /** What the first alternative of `/description:?(.*)parent_title:?(.+)|(.*)/gms` captures,
      and where its `parent_title` stands. */
  datatype Captures = Captures(description: string, parent: string, at: nat)

  /** Where the first capture starts: after `description` and, when present, its colon (the
      greedy `:?` takes it; giving it back cannot help, since `parent_title` cannot start on a
      colon). */
  function CaptureStart(s: string): nat
  {
    if |s| > 11 && s[11] == ':' then 12 else 11
  }

  /** Where the second capture starts when `parent_title` stands at `k`: after its colon, unless
      taking the colon would leave `(.+)` nothing to match. */
  function ParentStart(s: string, k: nat): nat
    requires k + 12 < |s|
  {
    if s[k + 12] == ':' && k + 13 < |s| then k + 13 else k + 12
  }

  /** The first alternative matched at the start of `s` (with the `s` flag `.` matches every
      character, so the match always runs to the end). The greedy `(.*)` settles on the last
      `parent_title` that leaves `(.+)` at least one character. */
  function DescriptionMatch(s: string): (r: Option<Captures>)
    ensures r.Some? ==> PrefixAt(s, DescriptionKey, 0)
    ensures r.Some? ==> CaptureStart(s) <= r.value.at && r.value.at + 12 < |s| && PrefixAt(s, TitleKey, r.value.at)
    ensures r.Some? ==> forall j: nat :: r.value.at < j && j + 12 < |s| ==> !PrefixAt(s, TitleKey, j)
    ensures r.Some? ==> r.value.description == s[CaptureStart(s)..r.value.at]
    ensures r.Some? ==> r.value.parent == s[ParentStart(s, r.value.at)..]
    ensures r.None? ==> !PrefixAt(s, DescriptionKey, 0)
                        || forall j: nat :: CaptureStart(s) <= j && j + 12 < |s| ==> !PrefixAt(s, TitleKey, j)
  {
    if !PrefixAt(s, DescriptionKey, 0) then None
    else
      var a := CaptureStart(s);
      match FindLast(s, TitleKey, a, |s| - 13)
      case None => None
      case Some(k) => Some(Captures(s[a..k], s[ParentStart(s, k)..], k))
  }

  /** The second capture is never empty, and neither capture is the whole content. */
  lemma CapturesShorter(s: string)
    requires DescriptionMatch(s).Some?
    ensures var c := DescriptionMatch(s).value;
            c.parent != "" && |c.description| < |s| && |c.parent| < |s|
  {
  }

  /** The match array `exec` returns when `lastIndex` is `at`: `[match[0], $1, $2, $3]`, with
      None for an unmatched group (`undefined`). The third alternative matches at every
      position, so the match always starts at `at` and takes the rest of the content. */
  function MatchFrom(s: string, at: nat): (m: seq<Option<string>>)
    requires at <= |s|
    ensures |m| == 4 && m[0] == Some(s[at..])
    ensures DescriptionMatch(s[at..]).None? ==> m[1] == None && m[2] == None && m[3] == Some(s[at..])
    ensures DescriptionMatch(s[at..]).Some? ==>
              m[1] == Some(DescriptionMatch(s[at..]).value.description)
              && m[2] == Some(DescriptionMatch(s[at..]).value.parent) && m[3] == None
  {
    var t := s[at..];
    match DescriptionMatch(t)
    case Some(c) => [Some(t), Some(c.description), Some(c.parent), None]
    case None => [Some(t), None, None, Some(t)]
  }

  /** `set.add(x)` on a Set kept as its insertion order. */
  function SetAdd(seen: seq<Option<string>>, x: Option<string>): (r: seq<Option<string>>)
    ensures x in seen ==> r == seen
    ensures x !in seen ==> r == seen + [x]
  {
    if x in seen then seen else seen + [x]
  }

  /** `m.forEach(it => set.add(it))`, as a value. */
  function AddEach(seen: seq<Option<string>>, m: seq<Option<string>>): seq<Option<string>>
    decreases |m|
  {
    if m == [] then seen else AddEach(SetAdd(seen, m[0]), m[1..])
  }

  /** Adding the four elements of a match one by one. */
  lemma AddEachFour(seen: seq<Option<string>>, m: seq<Option<string>>)
    requires |m| == 4
    ensures AddEach(seen, m) == SetAdd(SetAdd(SetAdd(SetAdd(seen, m[0]), m[1]), m[2]), m[3])
  {
    var s1 := SetAdd(seen, m[0]);
    var s2 := SetAdd(s1, m[1]);
    var s3 := SetAdd(s2, m[2]);
    assert m[1..][1..] == m[2..] && m[2..][1..] == m[3..] && m[3..][1..] == [];
    assert AddEach(seen, m) == AddEach(s1, m[1..]);
    assert AddEach(s1, m[1..]) == AddEach(s2, m[2..]);
    assert AddEach(s2, m[2..]) == AddEach(s3, m[3..]);
    assert AddEach(s3, m[3..]) == AddEach(SetAdd(s3, m[3]), []);
  }

  lemma TruthyCons(x: Option<string>, rest: seq<Option<string>>)
    ensures Truthy([x] + rest) == (if x.Some? && x.value != "" then [x.value] else []) + Truthy(rest)
  {
    assert ([x] + rest)[1..] == rest;
  }

  /** The Set after the `exec` loop has run: the match at 0, then (for non-empty content) the
      empty match at the end, after which `lastIndex` passes the end and `exec` gives null. */
  function ExecSet(s: string): seq<Option<string>>
  {
    if |s| == 0 then AddEach([], MatchFrom(s, 0))
    else AddEach(AddEach([], MatchFrom(s, 0)), MatchFrom(s, |s|))
  }

  /** `filter(it => it)`: the defined, non-empty strings, in order. */
  function Truthy(xs: seq<Option<string>>): (r: seq<string>)
    ensures |r| <= |xs|
    ensures forall i :: 0 <= i < |r| ==> r[i] != "" && Some(r[i]) in xs
    ensures forall x :: Some(x) in xs && x != "" ==> x in r
  {
    if xs == [] then []
    else (if xs[0].Some? && xs[0].value != "" then [xs[0].value] else []) + Truthy(xs[1..])
  }

  /** The captures that become hints: the distinct non-empty ones of the description capture
      and the parent capture, in that order, when the first alternative matches; none
      otherwise. */
  function HintCaptures(s: string): (r: seq<string>)
    ensures |r| <= 2 && forall i :: 0 <= i < |r| ==> r[i] != ""
    ensures |r| == 2 ==> r[0] != r[1]
    ensures DescriptionMatch(s).None? <==> r == []
    ensures DescriptionMatch(s).Some? ==> r[|r| - 1] == DescriptionMatch(s).value.parent
    ensures DescriptionMatch(s).Some? && |r| == 2 ==> r[0] == DescriptionMatch(s).value.description
    ensures DescriptionMatch(s).Some? && |r| == 1 ==>
              DescriptionMatch(s).value.description in {"", DescriptionMatch(s).value.parent}
  {
    match DescriptionMatch(s)
    case None => []
    case Some(c) =>
      CapturesShorter(s);
      if c.description == "" || c.description == c.parent then [c.parent]
      else [c.description, c.parent]
  }

  /** The Set the loop builds has more than one element, and dropping its first (the whole
      content) and the falsy ones leaves exactly the hint captures. */
  lemma ExecSetCaptures(s: string)
    ensures |ExecSet(s)| > 1 && Truthy(ExecSet(s)[1..]) == HintCaptures(s)
  {
    var m0 := MatchFrom(s, 0);
    assert s[0..] == s;
    var e := MatchFrom(s, |s|);
    assert s[|s|..] == "" && e == [Some(""), None, None, Some("")];
    AddEachFour([], m0);
    var first := AddEach([], m0);
    AddEachFour(first, e);
    if DescriptionMatch(s).None? {
      assert m0 == [Some(s), None, None, Some(s)];
      if |s| == 0 {
        PlainEmptySet();
      } else {
        PlainSet(s);
      }
    } else {
      var c := DescriptionMatch(s).value;
      CapturesShorter(s);
      assert m0 == [Some(s), Some(c.description), Some(c.parent), None];
      MatchedSet(s, c.description, c.parent);
    }
  }

  /** The Set for empty content: `["", undefined]`. */
  lemma PlainEmptySet()
    ensures var found := SetAdd(SetAdd(SetAdd(SetAdd([], Some("")), None), None), Some(""));
            |found| > 1 && Truthy(found[1..]) == []
  {
    var found := SetAdd(SetAdd(SetAdd(SetAdd([], Some("")), None), None), Some(""));
    assert found == [Some(""), None];
    assert found[1..] == [None] + [];
    TruthyCons(None, []);
  }

  /** The Set for content the first alternative does not match: `[content, undefined, ""]`. */
  lemma PlainSet(t: string)
    requires t != ""
    ensures var first := SetAdd(SetAdd(SetAdd(SetAdd([], Some(t)), None), None), Some(t));
            var found := SetAdd(SetAdd(SetAdd(SetAdd(first, Some("")), None), None), Some(""));
            |found| > 1 && Truthy(found[1..]) == []
  {
    var first := SetAdd(SetAdd(SetAdd(SetAdd([], Some(t)), None), None), Some(t));
    assert first == [Some(t), None];
    var found := SetAdd(SetAdd(SetAdd(SetAdd(first, Some("")), None), None), Some(""));
    assert found == [Some(t), None, Some("")];
    assert found[1..] == [None] + [Some("")];
    TruthyCons(None, [Some("")]);
    TruthyCons(Some(""), []);
  }

  /** The Set for a match of the first alternative: the content, the captures that are new,
      `undefined`, then `""` unless already present. */
  lemma MatchedSet(t: string, g1: string, g2: string)
    requires g2 != "" && |g1| < |t| && |g2| < |t|
    ensures var first := SetAdd(SetAdd(SetAdd(SetAdd([], Some(t)), Some(g1)), Some(g2)), None);
            var found := SetAdd(SetAdd(SetAdd(SetAdd(first, Some("")), None), None), Some(""));
            |found| > 1
            && Truthy(found[1..]) == if g1 == "" || g1 == g2 then [g2] else [g1, g2]
  {
    assert Some(t) != Some(g1) && Some(t) != Some(g2);
    var first := SetAdd(SetAdd(SetAdd(SetAdd([], Some(t)), Some(g1)), Some(g2)), None);
    if g1 == g2 {
      assert first == [Some(t), Some(g1), None];
      SameCaptures(t, g1);
    } else {
      assert first == [Some(t), Some(g1), Some(g2), None];
      if g1 == "" {
        EmptyDescription(t, g2);
      } else {
        TwoCaptures(t, g1, g2);
      }
    }
  }

  lemma SameCaptures(t: string, g: string)
    requires g != ""
    ensures var found := SetAdd(SetAdd(SetAdd(SetAdd([Some(t), Some(g), None], Some("")), None), None), Some(""));
            |found| > 1 && Truthy(found[1..]) == [g]
  {
    var found := SetAdd(SetAdd(SetAdd(SetAdd([Some(t), Some(g), None], Some("")), None), None), Some(""));
    assert Some("") !in [Some(t), Some(g), None] || t == "";
    if t == "" {
      assert found == [Some(t), Some(g), None];
      assert found[1..] == [Some(g)] + [None];
      TruthyCons(Some(g), [None]);
    } else {
      assert found == [Some(t), Some(g), None, Some("")];
      assert found[1..] == [Some(g)] + ([None] + [Some("")]);
      TruthyCons(Some(g), [None] + [Some("")]);
    }
    TruthyCons(None, [Some("")]);
    TruthyCons(Some(""), []);
    TruthyCons(None, []);
  }

  lemma EmptyDescription(t: string, g2: string)
    requires g2 != ""
    ensures var found := SetAdd(SetAdd(SetAdd(SetAdd([Some(t), Some(""), Some(g2), None], Some("")), None), None), Some(""));
            |found| > 1 && Truthy(found[1..]) == [g2]
  {
    var start := [Some(t), Some(""), Some(g2), None];
    assert Some("") in start && None in start;
    var found := SetAdd(SetAdd(SetAdd(SetAdd(start, Some("")), None), None), Some(""));
    assert found == start;
    assert found[1..] == [Some("")] + ([Some(g2)] + [None]);
    TruthyCons(Some(""), [Some(g2)] + [None]);
    TruthyCons(Some(g2), [None]);
    TruthyCons(None, []);
  }

  lemma TwoCaptures(t: string, g1: string, g2: string)
    requires g1 != "" && g2 != "" && t != ""
    ensures var found := SetAdd(SetAdd(SetAdd(SetAdd([Some(t), Some(g1), Some(g2), None], Some("")), None), None), Some(""));
            |found| > 1 && Truthy(found[1..]) == [g1, g2]
  {
    var start := [Some(t), Some(g1), Some(g2), None];
    assert Some("") !in start;
    var once := SetAdd(start, Some(""));
    assert once == start + [Some("")] && once[3] == None && once[4] == Some("");
    assert SetAdd(SetAdd(SetAdd(once, None), None), Some("")) == once;
    var tail := [None, Some("")];
    assert once[1..] == [Some(g1), Some(g2)] + tail;
    TruthyNoneEmpty();
    TruthyPair(g1, g2, tail);
  }

  lemma TruthyNoneEmpty()
    ensures Truthy([None, Some("")]) == []
  {
    TruthyCons(None, [Some("")]);
    TruthyCons(Some(""), []);
    assert [None, Some("")] == [None] + [Some("")];
  }

  lemma TruthyPair(x: string, y: string, rest: seq<Option<string>>)
    requires x != "" && y != "" && Truthy(rest) == []
    ensures Truthy([Some(x), Some(y)] + rest) == [x, y]
  {
    TruthyCons(Some(x), [Some(y)] + rest);
    TruthyCons(Some(y), rest);
    assert [Some(x), Some(y)] + rest == [Some(x)] + ([Some(y)] + rest);
  }

  /** Lines 14-23 of the source: the `exec` loop with its `lastIndex` bump after an empty
      match, adding every element of every match to an insertion-ordered Set, then the
      `slice`/`filter` of the result. */
  method ContextCaptures(content: string) returns (captures: seq<string>)
    ensures captures == HintCaptures(content)
  {
    var seen: seq<Option<string>> := [];
    var lastIndex: nat := 0;
    while lastIndex <= |content|
      invariant lastIndex == 0 ==> seen == []
      invariant 0 < lastIndex <= |content| ==> lastIndex == |content| && seen == AddEach([], MatchFrom(content, 0))
      invariant lastIndex > |content| ==> lastIndex == |content| + 1 && seen == ExecSet(content)
      decreases |content| + 1 - lastIndex
    {
      var index := lastIndex;
      var matches := MatchFrom(content, index);
      lastIndex := index + |matches[0].value|;
      if index == lastIndex {
        lastIndex := lastIndex + 1;
      }
      ghost var before := seen;
      var j := 0;
      while j < |matches|
        invariant 0 <= j <= |matches|
        invariant AddEach(seen, matches[j..]) == AddEach(before, matches)
      {
        assert matches[j..][1..] == matches[j + 1..];
        seen := SetAdd(seen, matches[j]);
        j := j + 1;
      }
      assert matches[|matches|..] == [];
    }
    ExecSetCaptures(content);
    if |seen| > 1 {
      captures := Truthy(seen[1..]);
    } else {
      captures := FirstOnly(Truthy(seen));
    }
  }

  /** `slice(0, 1)`. */
  function FirstOnly(xs: seq<string>): (r: seq<string>)
    ensures |r| <= 1 && (xs != [] ==> r == [xs[0]]) && (xs == [] ==> r == [])
  {
    if xs == [] then [] else [xs[0]]
  }

  lemma DollarFreeSlice(s: string, i: nat, j: nat)
    requires i <= j <= |s| && '$' !in s
    ensures '$' !in s[i..j]
  {
    forall k | 0 <= k < j - i ensures s[i..j][k] != '$' {
      assert s[i..j][k] == s[i + k];
    }
  }

  /** No hint capture of the content holds a `$`, which `replace` would read as part of a
      replacement pattern. */
  predicate LiteralCaptures(content: string) {
    forall i :: 0 <= i < |HintCaptures(content)| ==> '$' !in HintCaptures(content)[i]
  }

  /** Hint captures are pieces of the content, so a `$`-free content gives `$`-free captures. */
  lemma CapturesDollarFree(s: string)
    requires '$' !in s
    ensures LiteralCaptures(s)
  {
    if DescriptionMatch(s).Some? {
      var c := DescriptionMatch(s).value;
      DollarFreeSlice(s, CaptureStart(s), c.at);
      DollarFreeSlice(s, ParentStart(s, c.at), |s|);
      assert s[ParentStart(s, c.at)..] == s[ParentStart(s, c.at)..|s|];
    }
  }

  /** `arrSet.map((it, idx) => DESCRIPTION_TEMPLATES[idx].replace("{}", it))`. With at most two
      captures the template lookup stays in range; a `$` in a capture would be read as a
      replacement pattern, which is outside this model. */
  function Hints(content: string): (r: seq<string>)
    requires LiteralCaptures(content)
    ensures |r| == |HintCaptures(content)| <= 2
    ensures |r| >= 1 ==> r[0] == "Use " + HintCaptures(content)[0] + " to create some context for subsequent tasks"
    ensures |r| == 2 ==> r[1] == "parent task was titled " + HintCaptures(content)[1]
  {
    var caps := HintCaptures(content);
    TemplatesFill();
    seq(|caps|, i requires 0 <= i < |caps| => ReplaceFirst(Templates[i], "{}", caps[i]))
  }

  /** Each template has its `{}` where the text puts it. */
  lemma TemplatesFill()
    ensures forall x | '$' !in x :: ReplaceFirst(Templates[0], "{}", x)
                                   == "Use " + x + " to create some context for subsequent tasks"
    ensures forall x | '$' !in x :: ReplaceFirst(Templates[1], "{}", x) == "parent task was titled " + x
  {
    assert Templates[1] == "parent task was titled " + Slot + "";
    forall x | '$' !in x ensures ReplaceFirst(Templates[0], "{}", x)
                                 == "Use " + x + " to create some context for subsequent tasks" {
      ReplaceFirstAfterFree("Use ", "{}", " to create some context for subsequent tasks", x);
    }
    forall x | '$' !in x ensures ReplaceFirst(Templates[1], "{}", x) == "parent task was titled " + x {
      ReplaceFirstAfterFree("parent task was titled ", "{}", "", x);
    }
  }

  /** Plain text, empty content, or the structure anywhere but at the very start gives no
      hints: the whole content is never used as context. */
  lemma NoHintsWithoutDescription(s: string)
    requires !PrefixAt(s, DescriptionKey, 0)
    ensures HintCaptures(s) == []
  {
  }

  /** A `$` outside the structure is harmless: `"Buy milk for $3"` has no captures, so nothing
      is replaced and the request goes out without hints. */
  lemma PriceInContent(s: string)
    requires s == "Buy milk for $3"
    ensures LiteralCaptures(s) && Hints(s) == []
  {
    assert s[0] != DescriptionKey[0];
    assert s[..|DescriptionKey|][0] == s[0];
    NoHintsWithoutDescription(s);
  }

  // ---------------------------------------------------------------------------
  // expandTasksIntoAtomicTasks

  /** The number of steps asked for: the given count, 5 when it is omitted. */
  function StepCount(count: Option<nat>): (n: nat)
    ensures count.None? ==> n == 5
    ensures count.Some? ==> n == count.value
  {
    count.GetOr(5)
  }

  /** The first message's text. The count reads back as a decimal numeral right after the
      head, and the title reads back between the quotes of the tail. */
  function RequestText(title: string, n: nat): (r: string)
    ensures var k := |RequestHead| + |NatToString(n)|;
            k + |RequestTail(title)| == |r| && r[..|RequestHead|] == RequestHead
            && DecimalValue(r[|RequestHead|..k]) == n && r[k..] == RequestTail(title)
            && r[k + 35..k + 35 + |title|] == title
  {
    Framed(RequestHead, NatToString(n), RequestTail(title));
    Framed(" todo list steps simplifying task \"", title, "\" into smaller tasks");
    RequestHead + NatToString(n) + RequestTail(title)
  }

  const RequestHead: string := "make exactly "

  function RequestTail(title: string): string
  {
    " todo list steps simplifying task \"" + title + "\" into smaller tasks"
  }

  /** The messages of the decomposition request: the request, then one user message per hint,
      in order. */
  function DecompositionMessages(title: string, count: Option<nat>, hints: seq<string>): (r: seq<Message>)
    ensures |r| == |hints| + 1 && r[0] == Message("user", RequestText(title, StepCount(count)))
    ensures forall i :: 0 <= i < |hints| ==> r[i + 1] == Message("user", hints[i])
    ensures forall i :: 0 <= i < |r| ==> r[i].role == "user"
  {
    [Message("user", RequestText(title, StepCount(count)))] + seq(|hints|, i requires 0 <= i < |hints| => Message("user", hints[i]))
  }

  /** The middle of a three-part text, cut back out. */
  lemma Framed(a: string, b: string, c: string)
    ensures var s := a + b + c;
            s[|a|..|a| + |b|] == b && s[|a| + |b|..] == c
  {
    var s := a + b + c;
    assert s[|a|..|a| + |b|] == b;
  }

  /** What the decomposition call resolves to: the `tasks` array of the function-call
      arguments; `[]` when the reply holds no function call, or when the call, the parse or
      reading a missing `tasks` throws inside the `try`. */
  function DecodeDecomposition(reply: DecomposeReply): (r: seq<Descriptor>)
    ensures reply.Arguments? && reply.tasks.Some? ==> r == reply.tasks.value
    ensures !(reply.Arguments? && reply.tasks.Some?) ==> r == []
  {
    match reply
    case Arguments(Some(tasks)) => tasks
    case _ => []
  }

  /** `expandTasksIntoAtomicTasks(task, count)`, as the `i`-th decomposition call of the cycle.
      Hint extraction runs before the `try`, so a task without content throws at
      `content.substring` and the promise rejects (Err) instead of resolving to `[]`. */
  function ExpandTask(title: string, content: Option<string>, count: Option<nat>, i: nat, sv: Services)
    : (r: Result<seq<Descriptor>, string>)
    requires content.Some? ==> LiteralCaptures(content.value)
    ensures content.None? <==> r.Err?
    ensures content.Some? ==>
              r == Ok(DecodeDecomposition(sv.decompose(i, DecompositionMessages(title, count, Hints(content.value)))))
  {
    match content
    case None => Err("TypeError: content is undefined")
    case Some(c) => Ok(DecodeDecomposition(sv.decompose(i, DecompositionMessages(title, count, Hints(c)))))
  }

  // ---------------------------------------------------------------------------
  // expandDescriptionsForAiPrompt

  const ShortResponsePrefix: string := "[short response][non conversational] "
  const CompletionErrorText: string := "Error generating content. Please try again."

  /** The prompt sent for a placeholder's text. */
  function ShortPrompt(description: string): (r: string)
    ensures |r| == |ShortResponsePrefix| + |description|
    ensures r[..|ShortResponsePrefix|] == ShortResponsePrefix && r[|ShortResponsePrefix|..] == description
  {
    ShortResponsePrefix + description
  }

  /** The value `expandDescriptionsForAiPrompt` resolves to, given the reply to its request:
      the reply with leading white space trimmed, or the fixed error text when the call (or
      reading the reply) threw. */
  function CompletionText(reply: Option<string>): (r: string)
    ensures reply.None? ==> r == CompletionErrorText
    ensures reply.Some? ==> |r| <= |reply.value|
    ensures reply.Some? ==> reply.value == reply.value[..|reply.value| - |r|] + r
    ensures reply.Some? ==> forall i :: 0 <= i < |reply.value| - |r| ==> IsJsSpace(reply.value[i])
    ensures reply.Some? ==> r == [] || !IsJsSpace(r[0])
  {
    match reply
    case None => CompletionErrorText
    case Some(t) =>
      var r := TrimStart(t);
      assert t == t[..|t| - |r|] + t[|t| - |r|..];
      r
  }
}

/** The inline-completion placeholders `ai{{…}}`: the escaping helper, the tokenizer,
    the prompt-to-response map and the content substitution of `src/index.js`. */
module Placeholders {
  import opened Wrappers
  import opened Text
  import opened Tasks
  import opened OpenAI

  // ---------------------------------------------------------------------------
  // escapeRegExp

  /** The SyntaxCharacters of an ECMAScript regular expression, the class the source escapes. */
  predicate IsSyntaxChar(c: char) {
    c in "^$\\.*+?()[]{}|"
  }

  /** `escapeRegExp`: a backslash in front of every syntax character. */
  function EscapeRegExp(s: string): string
  {
    if s == [] then []
    else (if IsSyntaxChar(s[0]) then ['\\', s[0]] else [s[0]]) + EscapeRegExp(s[1..])
  }

  /** Escaping at most doubles a prompt, and only when every character is a syntax one. */
  lemma {:induction false} EscapeLength(s: string)
    ensures |s| <= |EscapeRegExp(s)| <= 2 * |s|
    ensures |EscapeRegExp(s)| == 2 * |s| <==> forall i :: 0 <= i < |s| ==> IsSyntaxChar(s[i])
  {
    if s != [] {
      EscapeLength(s[1..]);
      if |EscapeRegExp(s)| == 2 * |s| {
        forall i | 0 <= i < |s| ensures IsSyntaxChar(s[i]) {
          if i > 0 { assert s[i] == s[1..][i - 1]; }
        }
      }
    }
  }

  /** A prompt without syntax characters is its own regular-expression source. */
  lemma {:induction false} EscapeOrdinary(s: string)
    requires forall i :: 0 <= i < |s| ==> !IsSyntaxChar(s[i])
    ensures EscapeRegExp(s) == s
  {
    if s != [] {
      EscapeOrdinary(s[1..]);
    }
  }

  /** The text a regular-expression source matches when it is made only of ordinary
      characters and escaped syntax characters; None for any other source. */
  function LiteralOf(src: string): Option<string>
  {
    if src == [] then Some([])
    else if src[0] == '\\' then
      if |src| >= 2 && IsSyntaxChar(src[1]) then
        match LiteralOf(src[2..])
        case None => None
        case Some(t) => Some([src[1]] + t)
      else None
    else if IsSyntaxChar(src[0]) then None
    else
      match LiteralOf(src[1..])
      case None => None
      case Some(t) => Some([src[0]] + t)
  }

  /** An escaped text followed by any source reads back as that text followed by what the
      rest reads as. */
  lemma {:induction false} EscapeThenLiteral(s: string, rest: string)
    ensures LiteralOf(EscapeRegExp(s) + rest) == PrependTo(s, LiteralOf(rest))
    decreases |s|
  {
    if s != [] {
      EscapeThenLiteral(s[1..], rest);
      var t := EscapeRegExp(s[1..]) + rest;
      var src := EscapeRegExp(s) + rest;
      if IsSyntaxChar(s[0]) {
        assert src == ['\\', s[0]] + t;
        assert src[2..] == t;
      } else {
        assert src == [s[0]] + t;
        assert src[1..] == t;
      }
      assert LiteralOf(src) == PrependTo([s[0]], LiteralOf(t));
      assert s == [s[0]] + s[1..];
      PrependAssoc([s[0]], s[1..], LiteralOf(rest));
    } else {
      assert EscapeRegExp(s) + rest == rest;
      if LiteralOf(rest).Some? {
        assert s + LiteralOf(rest).value == LiteralOf(rest).value;
      }
    }
  }

  lemma PrependAssoc(a: string, b: string, o: Option<string>)
    ensures PrependTo(a, PrependTo(b, o)) == PrependTo(a + b, o)
  {
    if o.Some? {
      assert a + (b + o.value) == (a + b) + o.value;
    }
  }

  function PrependTo(s: string, o: Option<string>): Option<string> {
    match o
    case None => None
    case Some(t) => Some(s + t)
  }

  /** escapeRegExp makes a prompt match literally: the escaped source denotes exactly `s`. */
  lemma EscapeRegExpIsLiteral(s: string)
    ensures LiteralOf(EscapeRegExp(s)) == Some(s)
  {
    EscapeThenLiteral(s, []);
    assert EscapeRegExp(s) + [] == EscapeRegExp(s);
    assert s + [] == s;
  }

  lemma {:induction false} EscapeAppend(a: string, b: string)
    ensures EscapeRegExp(a + b) == EscapeRegExp(a) + EscapeRegExp(b)
    decreases |a|
  {
    if a != [] {
      assert (a + b)[1..] == a[1..] + b;
      EscapeAppend(a[1..], b);
    } else {
      assert a + b == b;
    }
  }

  // ---------------------------------------------------------------------------
  // The tokenizer: /(?<=ai\{\{)([\s\S]*?)(?=\}\})/g driven by repeated exec

  const Open: string := "ai{{"
  const Close: string := "}}"

  /** The literal form of the placeholder for prompt `p`. */
  function Wrap(p: string): string {
    Open + p + Close
  }

  /** The regular-expression source the substitution builds for prompt `p`. */
  function PlaceholderSource(p: string): string {
    "ai\\{\\{" + EscapeRegExp(p) + "\\}\\}"
  }

  /** The source built for `p` matches exactly the literal `ai{{p}}`. */
  lemma PlaceholderSourceIsWrap(p: string)
    ensures LiteralOf(PlaceholderSource(p)) == Some(Wrap(p))
  {
    assert EscapeRegExp(Open) == "ai\\{\\{";
    assert EscapeRegExp(Close) == "\\}\\}";
    EscapeAppend(Open, p);
    EscapeAppend(Open + p, Close);
    EscapeRegExpIsLiteral(Wrap(p));
  }

  /** Content on which the exec loop terminates: an empty placeholder `ai{{}}` would give a
      zero-length match that never advances `lastIndex`. */
  predicate NoEmptyPlaceholder(s: string) {
    !Contains(s, Open + Close)
  }

  /** The start of the next match at or after `from`: the least position at which the
      lookbehind `ai{{` is satisfied. */
  function NextOpen(s: string, from: nat): (r: Option<nat>)
    ensures r.Some? ==> from <= r.value && 4 <= r.value && PrefixAt(s, Open, r.value - 4)
    ensures r.Some? ==> forall k: nat :: from <= k + 4 < r.value ==> !PrefixAt(s, Open, k)
    ensures r.None? ==> forall k: nat :: from <= k + 4 ==> !PrefixAt(s, Open, k)
  {
    match FindFrom(s, Open, if from >= 4 then from - 4 else 0)
    case None => None
    case Some(k) => Some(k + 4)
  }

  /** A span of content: the text strictly between an `ai{{` and the nearest `}}` after it. */
  datatype Span = Span(start: nat, end: nat)

  predicate Delimits(s: string, sp: Span) {
    && 4 <= sp.start <= sp.end
    && PrefixAt(s, Open, sp.start - 4)
    && FindFrom(s, Close, sp.start) == Some(sp.end)
  }

  /** Where the scan resumed before span `i` (the `lastIndex` of that exec call). */
  function Resume(r: seq<Span>, i: nat, from: nat): nat
    requires i <= |r|
  {
    if i == 0 then from else r[i - 1].end
  }

  /** A lazy match cannot be empty, since the content holds no `ai{{}}`. */
  lemma SpanNonEmpty(s: string, p: nat, q: nat)
    requires NoEmptyPlaceholder(s) && 4 <= p <= q
    requires PrefixAt(s, Open, p - 4) && PrefixAt(s, Close, q)
    ensures p < q
  {
    if p == q {
      PrefixAtConcat(s, Open, Close, p - 4);
      assert false;
    }
  }

  /** The matches of the exec loop started at `lastIndex == from`, left to right. */
  function OccurrencesFrom(s: string, from: nat): (r: seq<Span>)
    requires from <= |s| && NoEmptyPlaceholder(s)
    decreases |s| - from
    ensures forall i :: 0 <= i < |r| ==> Delimits(s, r[i]) && from <= r[i].start
  {
    match NextOpen(s, from)
    case None => []
    case Some(p) =>
      match FindFrom(s, Close, p)
      case None => []
      case Some(q) =>
        SpanNonEmpty(s, p, q);
        [Span(p, q)] + OccurrencesFrom(s, q)
  }

  /** One exec call: the first match found from `from`, then the scan resumes at its end. */
  lemma OccurrencesStep(s: string, from: nat)
    requires from <= |s| && NoEmptyPlaceholder(s)
    ensures NextOpen(s, from).None? ==> OccurrencesFrom(s, from) == []
    ensures NextOpen(s, from).Some? && FindFrom(s, Close, NextOpen(s, from).value).None? ==>
              OccurrencesFrom(s, from) == []
    ensures NextOpen(s, from).Some? && FindFrom(s, Close, NextOpen(s, from).value).Some? ==>
              var p := NextOpen(s, from).value;
              var q := FindFrom(s, Close, p).value;
              p < q <= |s| && OccurrencesFrom(s, from) == [Span(p, q)] + OccurrencesFrom(s, q)
  {
    if NextOpen(s, from).Some? && FindFrom(s, Close, NextOpen(s, from).value).Some? {
      SpanNonEmpty(s, NextOpen(s, from).value, FindFrom(s, Close, NextOpen(s, from).value).value);
    }
  }

  /** When the next exec finds nothing, the scan contributes nothing more. */
  lemma OccurrencesEnd(s: string, from: nat)
    requires from <= |s| && NoEmptyPlaceholder(s)
    requires NextOpen(s, from).None? || FindFrom(s, Close, NextOpen(s, from).value).None?
    ensures Texts(s, OccurrencesFrom(s, from)) == []
  {
  }

  /** The spans come left to right and do not overlap. */
  lemma {:induction false} OccurrencesOrdered(s: string, from: nat)
    requires from <= |s| && NoEmptyPlaceholder(s)
    ensures var r := OccurrencesFrom(s, from);
            forall i, j :: 0 <= i < j < |r| ==> r[i].end <= r[j].start
    decreases |s| - from
  {
    OccurrencesStep(s, from);
    var r := OccurrencesFrom(s, from);
    if r != [] {
      OccurrencesOrdered(s, r[0].end);
    }
  }

  /** No `ai{{` ends in `(lo, hi)`, that is, none is passed over between those indices. */
  ghost predicate NoOpenBetween(s: string, lo: nat, hi: nat) {
    forall k: nat :: lo <= k + 4 < hi ==> !PrefixAt(s, Open, k)
  }

  /** Nothing is skipped: between the point where each exec call resumed and the span it
      found, no `ai{{` ends. */
  lemma {:induction false} OccurrencesGapless(s: string, from: nat)
    requires from <= |s| && NoEmptyPlaceholder(s)
    ensures var r := OccurrencesFrom(s, from);
            forall i :: 0 <= i < |r| ==> NoOpenBetween(s, Resume(r, i, from), r[i].start)
    decreases |s| - from
  {
    OccurrencesStep(s, from);
    var r := OccurrencesFrom(s, from);
    if r != [] {
      var p := NextOpen(s, from).value;
      var q := FindFrom(s, Close, p).value;
      var rest := OccurrencesFrom(s, q);
      OccurrencesGapless(s, q);
      assert r == [Span(p, q)] + rest;
      forall i | 0 <= i < |r| ensures NoOpenBetween(s, Resume(r, i, from), r[i].start) {
        if i > 0 {
          assert r[i] == rest[i - 1] && Resume(r, i, from) == Resume(rest, i - 1, q);
        }
      }
    }
  }

  /** After the last span, every `ai{{` lacks a later `}}`: an unterminated opening
      contributes nothing. */
  lemma {:induction false} OccurrencesExhaustive(s: string, from: nat)
    requires from <= |s| && NoEmptyPlaceholder(s)
    ensures var r := OccurrencesFrom(s, from);
            forall k: nat :: Resume(r, |r|, from) <= k + 4 && PrefixAt(s, Open, k) ==>
              FindFrom(s, Close, k + 4).None?
    decreases |s| - from
  {
    OccurrencesStep(s, from);
    var r := OccurrencesFrom(s, from);
    if r != [] {
      var p := NextOpen(s, from).value;
      var q := FindFrom(s, Close, p).value;
      var rest := OccurrencesFrom(s, q);
      OccurrencesExhaustive(s, q);
      assert Resume(r, |r|, from) == Resume(rest, |rest|, q);
    } else if NextOpen(s, from).Some? {
      var p := NextOpen(s, from).value;
      forall k: nat | from <= k + 4 && PrefixAt(s, Open, k)
        ensures FindFrom(s, Close, k + 4).None?
      {
        assert p <= k + 4;
      }
    }
  }

  /** The text of a span (empty for a span that does not fit, which never occurs). */
  function TextOf(s: string, sp: Span): string {
    if sp.start <= sp.end <= |s| then s[sp.start..sp.end] else []
  }

  function Texts(s: string, spans: seq<Span>): (r: seq<string>)
    ensures |r| == |spans|
  {
    if spans == [] then [] else [TextOf(s, spans[0])] + Texts(s, spans[1..])
  }

  /** The prompts a content holds, as the exec loop at src/index.js:87-89 collects them. */
  function Spans(s: string): seq<string>
    requires NoEmptyPlaceholder(s)
  {
    Texts(s, OccurrencesFrom(s, 0))
  }

  /** The tokenizer of src/index.js:82-89: repeated `exec`, each resuming at the end of the
      previous match, pushing every match. */
  method ScanPlaceholders(content: string) returns (matches: seq<string>)
    requires NoEmptyPlaceholder(content)
    ensures matches == Spans(content)
  {
    matches := [];
    var lastIndex := 0;
    while true
      invariant lastIndex <= |content|
      invariant matches + Texts(content, OccurrencesFrom(content, lastIndex)) == Spans(content)
      decreases |content| - lastIndex
    {
      var open := IndexOf(content, Open, if lastIndex >= 4 then lastIndex - 4 else 0);
      if open.None? {
        OccurrencesEnd(content, lastIndex);
        return;
      }
      var p := open.value + 4;
      var close := IndexOf(content, Close, p);
      if close.None? {
        OccurrencesEnd(content, lastIndex);
        return;
      }
      var q := close.value;
      assert NextOpen(content, lastIndex) == Some(p) && FindFrom(content, Close, p) == Some(q);
      TextsStep(content, lastIndex);
      ghost var tr := Texts(content, OccurrencesFrom(content, q));
      assert TextOf(content, Span(p, q)) == content[p..q];
      AppendOne(matches, content[p..q], tr);
      matches := matches + [content[p..q]];
      lastIndex := q;
    }
  }

  lemma AppendOne<T>(a: seq<T>, x: T, b: seq<T>)
    ensures (a + [x]) + b == a + ([x] + b)
  {
  }

  /** The texts of the matches from `from` are the first match's text and the rest's. */
  lemma TextsStep(s: string, from: nat)
    requires from <= |s| && NoEmptyPlaceholder(s)
    requires NextOpen(s, from).Some? && FindFrom(s, Close, NextOpen(s, from).value).Some?
    ensures var p := NextOpen(s, from).value;
            var q := FindFrom(s, Close, p).value;
            p < q <= |s| &&
            Texts(s, OccurrencesFrom(s, from)) == [TextOf(s, Span(p, q))] + Texts(s, OccurrencesFrom(s, q))
  {
    var p := NextOpen(s, from).value;
    var q := FindFrom(s, Close, p).value;
    OccurrencesStep(s, from);
    TextsCons(s, Span(p, q), OccurrencesFrom(s, q));
  }

  lemma TextsCons(s: string, sp: Span, rest: seq<Span>)
    ensures Texts(s, [sp] + rest) == [TextOf(s, sp)] + Texts(s, rest)
  {
    assert ([sp] + rest)[1..] == rest;
  }


  lemma {:induction false} TextsAt(s: string, spans: seq<Span>, i: nat)
    requires i < |spans|
    ensures Texts(s, spans)[i] == TextOf(s, spans[i])
  {
    if i > 0 {
      TextsAt(s, spans[1..], i - 1);
    }
  }

  /** Every prompt of a content is the text between an `ai{{` and the nearest `}}` after it. */
  lemma SpansDelimited(s: string, i: nat)
    requires NoEmptyPlaceholder(s) && i < |Spans(s)|
    ensures var sp := OccurrencesFrom(s, 0)[i];
            && Spans(s)[i] == s[sp.start..sp.end]
            && PrefixAt(s, Open, sp.start - 4) && FindFrom(s, Close, sp.start) == Some(sp.end)
  {
    var sp := OccurrencesFrom(s, 0)[i];
    TextsAt(s, OccurrencesFrom(s, 0), i);
    assert Delimits(s, sp);
    assert PrefixAt(s, Close, sp.end);
  }

  /** Every prompt's placeholder occurs literally in the content, so the replacement loop
      finds it; and no prompt holds `}}`, as the capture is lazy. */
  lemma SpansFound(s: string, i: nat)
    requires NoEmptyPlaceholder(s) && i < |Spans(s)|
    ensures Contains(s, Wrap(Spans(s)[i])) && !Contains(Spans(s)[i], Close)
  {
    var sp := OccurrencesFrom(s, 0)[i];
    SpansDelimited(s, i);
    WrapAt(s, sp.start - 4, sp.end);
    NoCloseBefore(s, sp.start, sp.end);
  }

  /** An `ai{{` at `a` and a `}}` at `b` enclose the placeholder of the text between them. */
  lemma WrapAt(s: string, a: nat, b: nat)
    requires a + 4 <= b && PrefixAt(s, Open, a) && PrefixAt(s, Close, b)
    ensures PrefixAt(s, Wrap(s[a + 4..b]), a)
  {
    var p := s[a + 4..b];
    assert PrefixAt(s, p, a + 4);
    PrefixAtConcat(s, Open, p, a);
    PrefixAtConcat(s, Open + p, Close, a);
  }

  /** A stretch in which no `}}` starts, and which does not end in the middle of one, holds
      no `}}`. */
  lemma NoCloseBefore(s: string, start: nat, end: nat)
    requires start <= end <= |s| && forall k: nat :: start <= k < end ==> !PrefixAt(s, Close, k)
    ensures !Contains(s[start..end], Close)
  {
    var p := s[start..end];
    forall j: nat | j <= |p| ensures !PrefixAt(p, Close, j) {
      if PrefixAt(p, Close, j) {
        PrefixAtSlice(s, Close, start, end, j);
      }
    }
  }

  /** Content without any `ai{{` holds no prompt. */
  lemma SpansWithoutOpen(s: string)
    requires !Contains(s, Open)
    ensures NoEmptyPlaceholder(s) && Spans(s) == []
  {
    if Contains(s, Open + Close) {
      var i: nat :| i <= |s| && PrefixAt(s, Open + Close, i);
      assert s[i..i + 4] == (Open + Close)[..4];
      assert PrefixAt(s, Open, i);
      assert false;
    }
    OccurrencesStep(s, 0);
  }

  // ---------------------------------------------------------------------------
  // The prompt pool (src/index.js:81-96)

  /** `task.content || ''`. */
  function ContentOrEmpty(t: Task): string {
    t.content.GetOr("")
  }

  /** The batch on which every exec loop terminates. */
  predicate Scannable(updates: seq<Task>) {
    forall i :: 0 <= i < |updates| ==> NoEmptyPlaceholder(ContentOrEmpty(updates[i]))
  }

  /** `tasksWithPrompts`: each task with its prompts, keeping the tasks that have any. */
  function TasksWithPrompts(updates: seq<Task>): (r: seq<(Task, seq<string>)>)
    requires Scannable(updates)
    ensures |r| <= |updates|
    ensures forall i :: 0 <= i < |r| ==> r[i].0 in updates && r[i].1 != []
    ensures forall i :: 0 <= i < |r| ==>
              NoEmptyPlaceholder(ContentOrEmpty(r[i].0)) && r[i].1 == Spans(ContentOrEmpty(r[i].0))
  {
    if updates == [] then []
    else
      var m := Spans(ContentOrEmpty(updates[0]));
      (if m == [] then [] else [(updates[0], m)]) + TasksWithPrompts(updates[1..])
  }

  function Flatten(items: seq<(Task, seq<string>)>): seq<string> {
    if items == [] then [] else items[0].1 + Flatten(items[1..])
  }

  /** `allPrompts`: the flattened prompt lists, duplicates kept. */
  function AllPrompts(updates: seq<Task>): seq<string>
    requires Scannable(updates)
  {
    Flatten(TasksWithPrompts(updates))
  }

  /** Every task's prompts, in task order, as one list. */
  function SpansOfBatch(updates: seq<Task>): seq<string>
    requires Scannable(updates)
  {
    if updates == [] then [] else Spans(ContentOrEmpty(updates[0])) + SpansOfBatch(updates[1..])
  }

  /** Leaving out the tasks without prompts loses nothing: the pool is every task's spans
      concatenated in task order, repetitions included. */
  lemma {:induction false} AllPromptsConcatenates(updates: seq<Task>)
    requires Scannable(updates)
    ensures AllPrompts(updates) == SpansOfBatch(updates)
  {
    if updates != [] {
      AllPromptsConcatenates(updates[1..]);
      var m := Spans(ContentOrEmpty(updates[0]));
      var head := if m == [] then [] else [(updates[0], m)];
      FlattenAppend(head, TasksWithPrompts(updates[1..]));
      if m == [] {
        assert Flatten(head) == [];
      } else {
        assert Flatten(head) == m + Flatten([]);
      }
    }
  }

  lemma {:induction false} FlattenAppend(a: seq<(Task, seq<string>)>, b: seq<(Task, seq<string>)>)
    ensures Flatten(a + b) == Flatten(a) + Flatten(b)
  {
    if a != [] {
      assert (a + b)[1..] == a[1..] + b;
      FlattenAppend(a[1..], b);
    } else {
      assert a + b == b;
    }
  }

  // ---------------------------------------------------------------------------
  // The response map (src/index.js:110-119)

  /** `aiResponses`: one completion call per pool element, the i-th answering prompt i. */
  function Responses(prompts: seq<string>, sv: Services): (r: seq<string>)
    ensures |r| == |prompts|
    ensures forall i :: 0 <= i < |r| ==> r[i] == CompletionText(sv.complete(i, ShortPrompt(prompts[i])))
  {
    seq(|prompts|, i requires 0 <= i < |prompts| => CompletionText(sv.complete(i, ShortPrompt(prompts[i]))))
  }

  /** The object `forEach` fills: each prompt in turn mapped to its response. Its keys are
      exactly the pool's texts. */
  function ResponseMap(prompts: seq<string>, responses: seq<string>): (r: map<string, string>)
    requires |prompts| == |responses|
    decreases |prompts|
    ensures forall p :: p in r <==> p in prompts
  {
    if prompts == [] then map[]
    else
      var n := |prompts| - 1;
      ResponseMap(prompts[..n], responses[..n])[prompts[n] := responses[n]]
  }

  /** Prompt `i` is the last occurrence of its text in the pool. */
  predicate LastOccurrence(prompts: seq<string>, i: nat)
    requires i < |prompts|
  {
    forall j :: i < j < |prompts| ==> prompts[j] != prompts[i]
  }

  /** A repeated text maps to the response of its last occurrence. */
  lemma {:induction false} ResponseMapLastWins(prompts: seq<string>, responses: seq<string>)
    requires |prompts| == |responses|
    ensures forall i :: 0 <= i < |prompts| && LastOccurrence(prompts, i) ==>
              ResponseMap(prompts, responses)[prompts[i]] == responses[i]
    decreases |prompts|
  {
    if prompts != [] {
      var n := |prompts| - 1;
      ResponseMapLastWins(prompts[..n], responses[..n]);
      assert prompts == prompts[..n] + [prompts[n]];
      forall i | 0 <= i < |prompts| && LastOccurrence(prompts, i)
        ensures ResponseMap(prompts, responses)[prompts[i]] == responses[i]
      {
        if i < n {
          assert prompts[n] != prompts[i];
          assert LastOccurrence(prompts[..n], i) by {
            forall j | i < j < n ensures prompts[..n][j] != prompts[..n][i] {
              assert prompts[j] != prompts[i];
            }
          }
        }
      }
    }
  }

  /** The `forEach` of src/index.js:116-119. */
  method BuildResponseMap(prompts: seq<string>, responses: seq<string>) returns (m: map<string, string>)
    requires |prompts| == |responses|
    ensures m == ResponseMap(prompts, responses)
  {
    m := map[];
    var i := 0;
    while i < |prompts|
      invariant i <= |prompts|
      invariant m == ResponseMap(prompts[..i], responses[..i])
    {
      assert prompts[..i + 1][..i] == prompts[..i];
      assert responses[..i + 1][..i] == responses[..i];
      m := m[prompts[i] := responses[i]];
      i := i + 1;
    }
    assert prompts[..i] == prompts && responses[..i] == responses;
  }

  // ---------------------------------------------------------------------------
  // Substitution (src/index.js:123-146)

  /** `promptToResponse[prompt] || ''`. */
  function Lookup(m: map<string, string>, p: string): string {
    if p in m then m[p] else ""
  }

  /** For each prompt in turn, every literal `ai{{p}}` of the working text is replaced. */
  function SubstituteAll(c: string, prompts: seq<string>, m: map<string, string>): string
    decreases |prompts|
  {
    if prompts == [] then c
    else SubstituteAll(ReplaceAll(c, Wrap(prompts[0]), Lookup(m, prompts[0])), prompts[1..], m)
  }

  /** Responses that are their own placeholders leave the content as it was. */
  lemma {:induction false} SubstituteIdentity(c: string, prompts: seq<string>, m: map<string, string>)
    requires forall i :: 0 <= i < |prompts| ==> Lookup(m, prompts[i]) == Wrap(prompts[i])
    ensures SubstituteAll(c, prompts, m) == c
    decreases |prompts|
  {
    if prompts != [] {
      SubstituteIdentity(c, prompts[1..], m);
    }
  }

  /** Responses no longer than their placeholders never lengthen the content. */
  lemma {:induction false} SubstituteShortens(c: string, prompts: seq<string>, m: map<string, string>)
    requires forall i :: 0 <= i < |prompts| ==> |Lookup(m, prompts[i])| <= |Wrap(prompts[i])|
    ensures |SubstituteAll(c, prompts, m)| <= |c|
    decreases |prompts|
  {
    if prompts != [] {
      SubstituteShortens(ReplaceAll(c, Wrap(prompts[0]), Lookup(m, prompts[0])), prompts[1..], m);
    }
  }

  /** Text without any `ai{{` is left alone by any sequence of replacements. */
  lemma {:induction false} SubstituteWithoutOpen(c: string, prompts: seq<string>, m: map<string, string>)
    requires !Contains(c, Open)
    ensures SubstituteAll(c, prompts, m) == c
    decreases |prompts|
  {
    if prompts != [] {
      var w := Wrap(prompts[0]);
      if Contains(c, w) {
        var i: nat :| i <= |c| && PrefixAt(c, w, i);
        assert c[i..i + 4] == w[..4];
        assert PrefixAt(c, Open, i);
        assert false;
      }
      ReplaceAllAbsent(c, w, Lookup(m, prompts[0]));
      SubstituteWithoutOpen(c, prompts[1..], m);
    }
  }

  /** The loop of src/index.js:126-138: exec over the original content, each match
      replacing all occurrences of its placeholder in the working text. */
  method Substitute(content: string, m: map<string, string>) returns (updated: string)
    requires NoEmptyPlaceholder(content)
    requires forall p :: p in m ==> '$' !in m[p]
    ensures updated == SubstituteAll(content, Spans(content), m)
  {
    updated := content;
    var lastIndex := 0;
    while true
      invariant lastIndex <= |content|
      invariant SubstituteAll(updated, Texts(content, OccurrencesFrom(content, lastIndex)), m)
                == SubstituteAll(content, Spans(content), m)
      decreases |content| - lastIndex
    {
      var open := IndexOf(content, Open, if lastIndex >= 4 then lastIndex - 4 else 0);
      if open.None? {
        OccurrencesEnd(content, lastIndex);
        return;
      }
      var p := open.value + 4;
      var close := IndexOf(content, Close, p);
      if close.None? {
        OccurrencesEnd(content, lastIndex);
        return;
      }
      var q := close.value;
      SubstituteStep(content, updated, lastIndex, m, p, q);
      var prompt := content[p..q];
      updated := ReplaceAll(updated, Wrap(prompt), Lookup(m, prompt));
      lastIndex := q;
    }
  }

  /** One exec step of the substitution loop: the prompt found is replaced, and what is
      left to do is the rest of the scan. */
  lemma SubstituteStep(content: string, updated: string, from: nat, m: map<string, string>, p: nat, q: nat)
    requires from <= |content| && NoEmptyPlaceholder(content)
    requires NextOpen(content, from) == Some(p) && FindFrom(content, Close, p) == Some(q)
    ensures from < q <= |content| && p <= q
    ensures SubstituteAll(updated, Texts(content, OccurrencesFrom(content, from)), m)
            == SubstituteAll(ReplaceAll(updated, Wrap(content[p..q]), Lookup(m, content[p..q])),
                             Texts(content, OccurrencesFrom(content, q)), m)
  {
    TextsStep(content, from);
    var prompt := content[p..q];
    assert TextOf(content, Span(p, q)) == prompt;
    ghost var tr := Texts(content, OccurrencesFrom(content, q));
    assert ([prompt] + tr)[1..] == tr;
  }

  /** One task after substitution: absent or empty content is returned as it is; otherwise
      the snapshot with only `content` replaced. */
  function Rewrite(t: Task, m: map<string, string>): (r: Task)
    requires NoEmptyPlaceholder(ContentOrEmpty(t))
    ensures r == t.(content := r.content)
    ensures t.content.None? || t.content == Some("") ==> r == t
    ensures t.content.Some? && t.content.value != "" ==>
              r.content == Some(SubstituteAll(t.content.value, Spans(t.content.value), m))
  {
    match t.content
    case None => t
    case Some(c) => if c == "" then t else t.(content := Some(SubstituteAll(c, Spans(c), m)))
  }

  /** Content without prompts comes back identical. */
  lemma RewriteWithoutPrompts(t: Task, m: map<string, string>)
    requires NoEmptyPlaceholder(ContentOrEmpty(t)) && Spans(ContentOrEmpty(t)) == []
    ensures Rewrite(t, m) == t
  {
  }

  function RewriteAll(updates: seq<Task>, m: map<string, string>): (r: seq<Task>)
    requires Scannable(updates)
    ensures |r| == |updates|
    ensures forall i :: 0 <= i < |r| ==> r[i] == Rewrite(updates[i], m)
  {
    seq(|updates|, i requires 0 <= i < |updates| => Rewrite(updates[i], m))
  }

  /** `updates.find(u => u.id === id)`. */
  function FirstWithId(updates: seq<Task>, id: string): (r: Option<Task>)
    ensures r.Some? ==> r.value in updates && r.value.id == id
    ensures r.Some? ==> exists k :: 0 <= k < |updates| && updates[k] == r.value && NoneBefore(updates, id, k)
    ensures r.None? ==> forall u :: u in updates ==> u.id != id
  {
    if updates == [] then None
    else if updates[0].id == id then (assert NoneBefore(updates, id, 0); Some(updates[0]))
    else
      var r := FirstWithId(updates[1..], id);
      if r.Some? then
        var k :| 0 <= k < |updates| - 1 && updates[1..][k] == r.value && NoneBefore(updates[1..], id, k);
        assert updates[k + 1] == r.value && NoneBefore(updates, id, k + 1) by {
          forall j | 0 <= j < k + 1 ensures updates[j].id != id {
            if j > 0 { assert updates[j] == updates[1..][j - 1]; }
          }
        }
        r
      else r
  }

  /** No task before position `k` carries the id. */
  predicate NoneBefore(updates: seq<Task>, id: string, k: nat)
    requires k <= |updates|
  {
    forall j :: 0 <= j < k ==> updates[j].id != id
  }

  /** `updates.find(u => u.id === id)?.content`: None when no task or no content. */
  function OriginalContent(updates: seq<Task>, id: string): Option<string> {
    match FirstWithId(updates, id)
    case None => None
    case Some(u) => u.content
  }

  /** The filter of src/index.js:146 applied to the rewritten tasks from index `i` on. */
  function ChangedFrom(rewritten: seq<Task>, updates: seq<Task>, i: nat): (r: seq<Task>)
    requires i <= |rewritten|
    decreases |rewritten| - i
    ensures forall t :: t in r ==> t in rewritten[i..] && t.content != OriginalContent(updates, t.id)
    ensures forall j :: i <= j < |rewritten| && rewritten[j].content != OriginalContent(updates, rewritten[j].id)
              ==> rewritten[j] in r
  {
    if i == |rewritten| then []
    else
      var t := rewritten[i];
      (if t.content != OriginalContent(updates, t.id) then [t] else []) + ChangedFrom(rewritten, updates, i + 1)
  }

  /** No two tasks of the batch share an id. */
  predicate UniqueIds(updates: seq<Task>) {
    forall i, j :: 0 <= i < j < |updates| ==> updates[i].id != updates[j].id
  }

  /** With distinct ids, `find` by id returns the task itself. */
  lemma {:induction false} FirstWithIdUnique(updates: seq<Task>, i: nat)
    requires UniqueIds(updates) && i < |updates|
    ensures FirstWithId(updates, updates[i].id) == Some(updates[i])
  {
    if i > 0 {
      assert updates[0].id != updates[i].id;
      assert UniqueIds(updates[1..]) by {
        forall a, b | 0 <= a < b < |updates| - 1 ensures updates[1..][a].id != updates[1..][b].id {
          assert updates[1..][a] == updates[a + 1] && updates[1..][b] == updates[b + 1];
        }
      }
      FirstWithIdUnique(updates[1..], i - 1);
    }
  }

  /** The replies on which the modelled replacement is the source's: `String.replace`
      would interpret `$&`, `$1`, `$$` in a response, so none contains `$`. */
  predicate LiteralReply(reply: Option<string>) {
    reply.None? || '$' !in reply.value
  }

  /** `replaceDescriptionWithAi`: the writes it issues and whether it resolves. */
  function ReplaceDescriptionWithAi(updates: seq<Task>, sv: Services): (o: Outcome)
    requires Scannable(updates)
    requires forall i: nat, p: string :: LiteralReply(sv.complete(i, p))
    ensures AllPrompts(updates) == [] ==> o == Outcome([], true)
    ensures o.writes == [] ==> o.ok
    ensures o.writes != [] ==> |o.writes| == 1 && o.writes[0].UpdateTasks? && o.writes[0].tasks != []
                               && o.ok == sv.acceptUpdate(o.writes[0].tasks)
    ensures forall w, t :: w in o.writes && t in w.tasks ==>
              t.content != OriginalContent(updates, t.id)
              && exists u :: u in updates && t == u.(content := t.content)
    ensures AllPrompts(updates) != [] ==>
              var prompts := AllPrompts(updates);
              var changed := ChangedFrom(RewriteAll(updates, ResponseMap(prompts, Responses(prompts, sv))), updates, 0);
              (o.writes == [] <==> changed == []) && (o.writes != [] ==> o.writes[0].tasks == changed)
  {
    var prompts := AllPrompts(updates);
    if prompts == [] then Outcome([], true)
    else
      var m := ResponseMap(prompts, Responses(prompts, sv));
      var rewritten := RewriteAll(updates, m);
      var changed := ChangedFrom(rewritten, updates, 0);
      ChangedKeepFields(updates, m);
      if changed == [] then Outcome([], true)
      else Outcome([UpdateTasks(changed)], sv.acceptUpdate(changed))
  }

  /** A task sent back is one of the updates with only its content replaced, and that content
      differs from the snapshot's. */
  lemma ChangedKeepFields(updates: seq<Task>, m: map<string, string>)
    requires Scannable(updates)
    ensures forall t :: t in ChangedFrom(RewriteAll(updates, m), updates, 0) ==>
              t.content != OriginalContent(updates, t.id)
              && exists u :: u in updates && t == u.(content := t.content)
  {
    var rewritten := RewriteAll(updates, m);
    forall t | t in ChangedFrom(rewritten, updates, 0)
      ensures exists u :: u in updates && t == u.(content := t.content)
    {
      var j :| 0 <= j < |rewritten| && rewritten[j] == t;
      assert updates[j] in updates;
    }
  }

  /** A task is written back exactly when its rewritten content differs from the content
      `find` returns for its id: that of the first fetched task with that id. */
  lemma SentIffChanged(updates: seq<Task>, sv: Services, i: nat)
    requires Scannable(updates) && i < |updates|
    requires forall i: nat, p: string :: LiteralReply(sv.complete(i, p))
    requires AllPrompts(updates) != []
    ensures var prompts := AllPrompts(updates);
            var t := Rewrite(updates[i], ResponseMap(prompts, Responses(prompts, sv)));
            var o := ReplaceDescriptionWithAi(updates, sv);
            (exists w :: w in o.writes && t in w.tasks) <==> t.content != OriginalContent(updates, updates[i].id)
  {
    var prompts := AllPrompts(updates);
    var m := ResponseMap(prompts, Responses(prompts, sv));
    var rewritten := RewriteAll(updates, m);
    var t := rewritten[i];
    assert t.id == updates[i].id;
    var changed := ChangedFrom(rewritten, updates, 0);
    if t in changed {
      assert UpdateTasks(changed) in ReplaceDescriptionWithAi(updates, sv).writes;
    }
  }

  /** With distinct ids, that first task is the task itself, so a task is written back exactly
      when its content changed; a task without prompts, or without content, is never sent. */
  lemma SentIffOwnContentChanged(updates: seq<Task>, sv: Services, i: nat)
    requires Scannable(updates) && UniqueIds(updates) && i < |updates|
    requires forall i: nat, p: string :: LiteralReply(sv.complete(i, p))
    requires AllPrompts(updates) != []
    ensures var prompts := AllPrompts(updates);
            var t := Rewrite(updates[i], ResponseMap(prompts, Responses(prompts, sv)));
            var o := ReplaceDescriptionWithAi(updates, sv);
            (exists w :: w in o.writes && t in w.tasks) <==> t.content != updates[i].content
  {
    SentIffChanged(updates, sv, i);
    FirstWithIdUnique(updates, i);
  }

  /** The write that carries a changed task back. */
  lemma ChangedWrittenBack(updates: seq<Task>, sv: Services, i: nat) returns (w: Write)
    requires Scannable(updates) && i < |updates|
    requires forall i: nat, p: string :: LiteralReply(sv.complete(i, p))
    requires AllPrompts(updates) != []
    requires var prompts := AllPrompts(updates);
             Rewrite(updates[i], ResponseMap(prompts, Responses(prompts, sv))).content
               != OriginalContent(updates, updates[i].id)
    ensures w.UpdateTasks? && ReplaceDescriptionWithAi(updates, sv).writes == [w]
    ensures var prompts := AllPrompts(updates);
            Rewrite(updates[i], ResponseMap(prompts, Responses(prompts, sv))) in w.tasks
  {
    SentIffChanged(updates, sv, i);
    var o := ReplaceDescriptionWithAi(updates, sv);
    w := o.writes[0];
    assert o.writes == [w];
  }

  // ---------------------------------------------------------------------------
  // Worked examples

  /** A placeholder may span a line break: `"ai{{a\nb}}"` holds the one prompt `"a\nb"`. */
  lemma MultilinePrompt(s: string)
    requires s == "ai{{a\nb}}"
    ensures NoEmptyPlaceholder(s) && Spans(s) == ["a\nb"]
  {
    ExampleFacts(s);
    SingleSpan(s, 0, 7);
    ExampleMiddle(s);
  }

  lemma ExampleFacts(s: string)
    requires s == "ai{{a\nb}}"
    ensures NoEmptyPlaceholder(s) && 7 <= |s|
    ensures PrefixAt(s, Open, 0) && forall j: nat :: j != 0 ==> !PrefixAt(s, Open, j)
    ensures FindFrom(s, Close, 4) == Some(7)
  {
    ExampleNoEmptyPlaceholder(s);
    ExampleOpens(s);
    ExampleCloses(s);
  }

  lemma ExampleMiddle(s: string)
    requires s == "ai{{a\nb}}"
    ensures s[4..7] == "a\nb"
  {
  }

  /** Content with a single `ai{{`, at `a`, whose first `}}` after it is at `q` holds the one
      prompt between them. */
  lemma SingleSpan(s: string, a: nat, q: nat)
    requires NoEmptyPlaceholder(s) && a + 4 < q <= |s|
    requires PrefixAt(s, Open, a) && forall j: nat :: j != a ==> !PrefixAt(s, Open, j)
    requires FindFrom(s, Close, a + 4) == Some(q)
    ensures Spans(s) == [s[a + 4..q]]
  {
    FirstFrom(s, Open, 0, a);
    OccurrencesStep(s, 0);
    OccurrencesStep(s, q);
    TextsCons(s, Span(a + 4, q), []);
  }

  /** One differing character rules out an occurrence. */
  lemma Mismatch(s: string, pat: string, i: nat, k: nat)
    requires i + |pat| <= |s| && k < |pat| && s[i + k] != pat[k]
    ensures !PrefixAt(s, pat, i)
  {
    assert s[i..i + |pat|][k] == s[i + k];
  }

  lemma ExampleNoEmptyPlaceholder(s: string)
    requires s == "ai{{a\nb}}"
    ensures NoEmptyPlaceholder(s)
  {
    forall i: nat | i <= |s| ensures !PrefixAt(s, Open + Close, i) {
      if i + 6 <= |s| {
        if i == 0 { Mismatch(s, Open + Close, 0, 4); }
        else if i == 1 { Mismatch(s, Open + Close, 1, 0); }
        else if i == 2 { Mismatch(s, Open + Close, 2, 0); }
        else { Mismatch(s, Open + Close, 3, 0); }
      }
    }
  }

  /** The example's one `ai{{` is at the start. */
  lemma ExampleOpens(s: string)
    requires s == "ai{{a\nb}}"
    ensures PrefixAt(s, Open, 0)
    ensures forall j: nat :: j != 0 ==> !PrefixAt(s, Open, j)
  {
    assert s[..4] == Open;
    forall j: nat | j != 0 ensures !PrefixAt(s, Open, j) {
      if j + 4 <= |s| {
        if j == 1 { Mismatch(s, Open, 1, 0); }
        else if j == 2 { Mismatch(s, Open, 2, 0); }
        else if j == 3 { Mismatch(s, Open, 3, 0); }
        else if j == 4 { Mismatch(s, Open, 4, 1); }
        else { Mismatch(s, Open, 5, 0); }
      }
    }
  }

  /** The example's first `}}` after its opening is at index 7. */
  lemma ExampleCloses(s: string)
    requires s == "ai{{a\nb}}"
    ensures FindFrom(s, Close, 4) == Some(7)
  {
    assert s[7..9] == Close;
    forall j: nat | 4 <= j < 7 ensures !PrefixAt(s, Close, j) {
      if j == 4 { Mismatch(s, Close, 4, 0); }
      else if j == 5 { Mismatch(s, Close, 5, 0); }
      else { Mismatch(s, Close, 6, 0); }
    }
    FirstFrom(s, Close, 4, 7);
  }
  /** A placeholder in the middle of a description is replaced by its response, and the text
      around it is kept: `"desc ai{{summarize X}} more"` becomes `"desc short summary more"`. */
  lemma SummaryExample(s: string, m: map<string, string>)
    requires s == "desc ai{{summarize X}} more"
    requires m == map["summarize X" := "short summary"]
    ensures NoEmptyPlaceholder(s) && Spans(s) == ["summarize X"]
    ensures SubstituteAll(s, Spans(s), m) == "desc short summary more"
  {
    SummarySpans(s);
    SummarySubstituted(s, m);
  }

  lemma SummarySpans(s: string)
    requires s == "desc ai{{summarize X}} more"
    ensures NoEmptyPlaceholder(s) && Spans(s) == ["summarize X"]
  {
    SummaryOpens(s);
    SummaryNoEmptyPlaceholder(s);
    SummaryCloses(s);
    SingleSpan(s, 5, 20);
    SummaryShape(s);
    assert s[9..20] == "summarize X";
  }

  lemma SummarySubstituted(s: string, m: map<string, string>)
    requires s == "desc ai{{summarize X}} more"
    requires m == map["summarize X" := "short summary"]
    ensures SubstituteAll(s, ["summarize X"], m) == "desc short summary more"
  {
    SummaryReplaced(s);
    assert Lookup(m, "summarize X") == "short summary";
    assert ["summarize X"][1..] == [];
  }

  /** The example's one placeholder is replaced, and the text around it is kept. */
  lemma SummaryReplaced(s: string)
    requires s == "desc ai{{summarize X}} more"
    ensures ReplaceAll(s, Wrap("summarize X"), "short summary") == "desc short summary more"
  {
    var w := Wrap("summarize X");
    SummaryShape(s);
    assert s[5..22] == w && s[..5] == "desc " && s[22..] == " more";
    forall j: nat | j < 5 ensures !PrefixAt(s, w, j) {
      Mismatch(s, w, j, 0);
    }
    FirstFrom(s, w, 0, 5);
    ReplaceAllFirst(s, w, "short summary", 5);
    SummaryResult("desc " + "short summary" + " more");
  }

  /** The example is its placeholder with text on either side. */
  lemma SummaryShape(s: string)
    requires s == "desc ai{{summarize X}} more"
    ensures s == "desc " + Wrap("summarize X") + " more"
  {
    assert Wrap("summarize X") == "ai{{" + "summarize X" + "}}";
  }

  lemma SummaryResult(r: string)
    requires r == "desc " + "short summary" + " more"
    ensures r == "desc short summary more"
  {
  }

  /** The example's one `ai{{` is at index 5. */
  lemma SummaryOpens(s: string)
    requires s == "desc ai{{summarize X}} more"
    ensures PrefixAt(s, Open, 5) && forall j: nat :: j != 5 ==> !PrefixAt(s, Open, j)
  {
    SummaryShape(s);
    assert s[5..9] == Open;
    forall j: nat | j != 5 ensures !PrefixAt(s, Open, j) {
      if j + 4 <= |s| {
        if j == 13 {
          Mismatch(s, Open, 13, 1);
        } else {
          assert s[j] != 'a';
          Mismatch(s, Open, j, 0);
        }
      }
    }
  }

  lemma SummaryNoEmptyPlaceholder(s: string)
    requires s == "desc ai{{summarize X}} more"
    ensures NoEmptyPlaceholder(s)
  {
    forall j: nat | j <= |s| ensures !PrefixAt(s, Open + Close, j) {
      if j + 6 <= |s| {
        if j == 5 {
          Mismatch(s, Open + Close, 5, 4);
        } else if j == 13 {
          Mismatch(s, Open + Close, 13, 1);
        } else {
          assert s[j] != 'a';
          Mismatch(s, Open + Close, j, 0);
        }
      }
    }
  }

  /** The first `}}` after the example's opening is at index 20. */
  lemma SummaryCloses(s: string)
    requires s == "desc ai{{summarize X}} more"
    ensures FindFrom(s, Close, 9) == Some(20)
  {
    SummaryShape(s);
    assert s[20..22] == Close;
    forall j: nat | 9 <= j < 20 ensures !PrefixAt(s, Close, j) {
      assert s[j] != '}';
      Mismatch(s, Close, j, 0);
    }
    FirstFrom(s, Close, 9, 20);
  }
}

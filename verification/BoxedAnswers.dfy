/** Brace-matched extraction of \boxed{...} payloads (bench/tasks/math500.py). */
module BoxedAnswers {
  import opened Basics

  const MARKER: string := "\\boxed{"

  predicate MarkerAt(text: string, s: nat) {
    s + |MARKER| <= |text| && text[s..s + |MARKER|] == MARKER
  }

  /** str.find: the first occurrence at or after `from`. */
  function Find(text: string, from: nat): (s: Option<nat>)
    requires from <= |text|
    ensures s.Some? ==> from <= s.value && MarkerAt(text, s.value)
    ensures forall k :: from <= k < (if s.Some? then s.value else |text|) ==> !MarkerAt(text, k)
    decreases |text| - from
  {
    if MarkerAt(text, from) then Some(from)
    else if from == |text| then None
    else Find(text, from + 1)
  }

  function Step(c: char): int {
    if c == '{' then 1 else if c == '}' then -1 else 0
  }

  /** The position just after the brace that brings `depth` to zero. */
  function CloseAt(text: string, i: nat, depth: nat): (e: Option<nat>)
    requires i <= |text|
    ensures e.Some? ==> i <= e.value <= |text| && (depth > 0 ==> i < e.value)
    decreases |text| - i
  {
    if depth == 0 then Some(i)
    else if i == |text| then None
    else CloseAt(text, i + 1, depth + Step(text[i]))
  }

  function Extract(text: string, from: nat): (boxes: seq<string>)
    requires from <= |text|
    decreases |text| - from
  {
    var start := Find(text, from);
    if start.None? then []
    else
      var content := start.value + |MARKER|;
      var end := CloseAt(text, content, 1);
      if end.None? then [] else [text[content..end.value - 1]] + Extract(text, end.value)
  }

  /** The inner loop: walk to the matching brace or to the end of the text. */
  method MatchBrace(text: string, contentStart: nat) returns (i: nat, depth: nat)
    requires contentStart <= |text|
    ensures CloseAt(text, contentStart, 1) == if depth == 0 then Some(i) else None
  {
    depth, i := 1, contentStart;
    while i < |text| && depth > 0
      invariant contentStart <= i <= |text|
      invariant CloseAt(text, i, depth) == CloseAt(text, contentStart, 1)
    {
      depth := depth + Step(text[i]);
      i := i + 1;
    }
  }

  method ExtractBoxedAnswers(text: string) returns (results: seq<string>)
    ensures results == Extract(text, 0)
  {
    hide Find, CloseAt;
    results := [];
    var searchFrom := 0;
    while true
      invariant searchFrom <= |text|
      invariant results + Extract(text, searchFrom) == Extract(text, 0)
      decreases |text| - searchFrom
    {
      var start := Find(text, searchFrom);
      if start.None? {
        break;
      }
      var contentStart := start.value + |MARKER|;
      var i, depth := MatchBrace(text, contentStart);
      if depth != 0 {
        break;
      }
      results := results + [text[contentStart..i - 1]];
      searchFrom := i;
    }
  }

  // ------------------------------------------------------------ balanced payloads

  function Net(s: string): int {
    if s == [] then 0 else Net(s[..|s| - 1]) + Step(s[|s| - 1])
  }

  /** As many closing as opening braces, and never more closing ones so far. */
  ghost predicate Balanced(p: string) {
    Net(p) == 0 && forall k :: 0 <= k <= |p| ==> Net(p[..k]) >= 0
  }

  lemma {:induction false} NetStep(text: string, start: nat, i: nat)
    requires start <= i < |text|
    ensures Net(text[start..i + 1]) == Net(text[start..i]) + Step(text[i])
  {
    assert text[start..i + 1][..i - start] == text[start..i];
  }

  lemma {:induction false} SliceStart(text: string, start: nat, i: nat, q: nat)
    requires start <= i <= q <= |text|
    ensures text[start..q][..i - start] == text[start..i]
  {
  }

  /** The scan stops exactly at the brace that closes a balanced payload. */
  lemma {:induction false} CloseFindsBalanced(text: string, start: nat, i: nat, depth: nat, q: nat)
    requires start <= i <= q < |text| && depth == 1 + Net(text[start..i])
    requires Balanced(text[start..q]) && text[q] == '}'
    ensures CloseAt(text, i, depth) == Some(q + 1)
    decreases q - i
  {
    NetStep(text, start, i);
    if i < q {
      SliceStart(text, start, i + 1, q);
      SliceStart(text, start, i, q);
      CloseFindsBalanced(text, start, i + 1, depth + Step(text[i]), q);
    }
  }

  lemma {:induction false} CloseIsBalanced(text: string, start: nat, i: nat, depth: nat)
    requires start <= i <= |text| && depth == 1 + Net(text[start..i])
    requires forall k :: start <= k <= i ==> Net(text[start..k]) >= 0
    requires CloseAt(text, i, depth).Some?
    ensures
      var e := CloseAt(text, i, depth).value;
      e > i && text[e - 1] == '}' && Balanced(text[start..e - 1])
    decreases |text| - i
  {
    NetStep(text, start, i);
    var next := depth + Step(text[i]);
    if next == 0 {
      var p := text[start..i];
      forall k | 0 <= k <= |p| ensures Net(p[..k]) >= 0 {
        assert p[..k] == text[start..start + k];
      }
    } else {
      CloseIsBalanced(text, start, i + 1, next);
    }
  }

  // ------------------------------------------------------------ printing and reading back

  /** Payloads boxed between separators: s0 \boxed{p0} s1 \boxed{p1} ... sn. */
  function Printed(seps: seq<string>, payloads: seq<string>): string
    requires |seps| == |payloads| + 1
  {
    if payloads == [] then seps[0]
    else seps[0] + MARKER + payloads[0] + "}" + Printed(seps[1..], payloads[1..])
  }

  ghost predicate MarkerFree(s: string) {
    forall k :: 0 <= k <= |s| ==> !MarkerAt(s, k)
  }

  /** The backslash opens the marker and occurs nowhere else in it. */
  lemma {:induction false} MarkersDoNotOverlap(text: string, k: nat, at: nat)
    requires MarkerAt(text, k) && MarkerAt(text, at) && k < at
    ensures k + |MARKER| <= at
  {
    var word := text[k..k + |MARKER|];
    assert forall j :: 0 < j < |MARKER| ==> MARKER[j] != MARKER[0];
    assert forall x :: k < x < k + |MARKER| ==> text[x] == word[x - k];
    assert text[at] == text[at..at + |MARKER|][0] == MARKER[0];
  }

  /** Since two occurrences cannot overlap, the first marker after a marker-free separator is the printed one. */
  lemma {:induction false} FindAfterSeparator(pre: string, sep: string, rest: string)
    requires MarkerFree(sep)
    ensures Find(pre + sep + MARKER + rest, |pre|) == Some(|pre| + |sep|)
  {
    var text := pre + sep + MARKER + rest;
    var at := |pre| + |sep|;
    assert MarkerAt(text, at);
    forall k | |pre| <= k < at ensures !MarkerAt(text, k) {
      if MarkerAt(text, k) {
        MarkersDoNotOverlap(text, k, at);
        assert sep[k - |pre|..k - |pre| + |MARKER|] == text[k..k + |MARKER|];
        assert MarkerAt(sep, k - |pre|);
      }
    }
  }

  lemma {:induction false} FindNothing(pre: string, sep: string)
    requires MarkerFree(sep)
    ensures Find(pre + sep, |pre|) == None
  {
    var text := pre + sep;
    forall k | |pre| <= k <= |text| ensures !MarkerAt(text, k) {
      if MarkerAt(text, k) {
        assert sep[k - |pre|..k - |pre| + |MARKER|] == text[k..k + |MARKER|];
        assert MarkerAt(sep, k - |pre|);
      }
    }
  }

  lemma {:induction false} PrintedBox(pre: string, seps: seq<string>, payloads: seq<string>)
    requires |seps| == |payloads| + 1 && payloads != []
    ensures pre + Printed(seps, payloads) ==
      pre + seps[0] + MARKER + payloads[0] + "}" + Printed(seps[1..], payloads[1..])
  {
  }

  lemma {:induction false} ExtractPrinted(pre: string, seps: seq<string>, payloads: seq<string>)
    requires |seps| == |payloads| + 1
    requires forall i :: 0 <= i < |seps| ==> MarkerFree(seps[i])
    requires forall i :: 0 <= i < |payloads| ==> Balanced(payloads[i])
    ensures Extract(pre + Printed(seps, payloads), |pre|) == payloads
    decreases |payloads|
  {
    var text := pre + Printed(seps, payloads);
    if payloads == [] {
      FindNothing(pre, seps[0]);
    } else {
      hide Extract, Balanced, MarkerFree, Printed;
      var p, tail := payloads[0], Printed(seps[1..], payloads[1..]);
      var pre' := pre + seps[0] + MARKER + p + "}";
      PrintedBox(pre, seps, payloads);
      BoxIsRead(pre, seps[0], p, tail);
      ExtractPrinted(pre', seps[1..], payloads[1..]);
    }
  }

  lemma {:induction false} BoxParts(front: string, p: string, tail: string)
    ensures
      var text := front + (p + "}" + tail);
      text[|front|..|front| + |p|] == p && text[|front| + |p|] == '}'
  {
  }

  lemma {:induction false} BoxCloses(front: string, p: string, tail: string)
    requires Balanced(p)
    ensures CloseAt(front + (p + "}" + tail), |front|, 1) == Some(|front| + |p| + 1)
  {
    hide Balanced, CloseAt;
    var text := front + (p + "}" + tail);
    BoxParts(front, p, tail);
    assert text[|front|..|front|] == [];
    CloseFindsBalanced(text, |front|, |front|, 1, |front| + |p|);
  }

  lemma {:induction false} BoxIsRead(pre: string, sep: string, p: string, tail: string)
    requires MarkerFree(sep) && Balanced(p)
    ensures
      var pre' := pre + sep + MARKER + p + "}";
      Extract(pre' + tail, |pre|) == [p] + Extract(pre' + tail, |pre'|)
  {
    hide Find, CloseAt, MarkerAt, MarkerFree, Balanced;
    var front := pre + sep + MARKER;
    var text := front + (p + "}" + tail);
    FindAfterSeparator(pre, sep, p + "}" + tail);
    BoxCloses(front, p, tail);
    BoxParts(front, p, tail);
    assert Extract(text, |pre|) == [p] + Extract(text, |front| + |p| + 1);
    hide Extract;
    assert front + p + "}" + tail == text;
  }

  /** Round trip: reading back printed payloads returns exactly them. */
  lemma {:induction false} PrintThenExtract(seps: seq<string>, payloads: seq<string>)
    requires |seps| == |payloads| + 1
    requires forall i :: 0 <= i < |seps| ==> MarkerFree(seps[i])
    requires forall i :: 0 <= i < |payloads| ==> Balanced(payloads[i])
    ensures Extract(Printed(seps, payloads), 0) == payloads
  {
    ExtractPrinted("", seps, payloads);
    assert "" + Printed(seps, payloads) == Printed(seps, payloads);
  }

  /** No box can be read from this text: no marker, or a first marker that is never closed. */
  ghost predicate Barren(s: string) {
    var start := Find(s, 0);
    start.None? || CloseAt(s, start.value + |MARKER|, 1).None?
  }

  lemma {:induction false} CloseShift(text: string, from: nat, i: nat, depth: nat)
    requires from <= i <= |text|
    ensures CloseAt(text[from..], i - from, depth).Some? <==> CloseAt(text, i, depth).Some?
    decreases |text| - i
  {
    if depth != 0 && i < |text| {
      CloseShift(text, from, i + 1, depth + Step(text[i]));
    }
  }

  lemma {:induction false} MarkerShift(text: string, from: nat, to: nat, k: nat)
    requires from <= from + k <= to <= |text|
    ensures MarkerAt(text[from..to], k) <==> MarkerAt(text, from + k) && from + k + |MARKER| <= to
  {
    if from + k + |MARKER| <= to {
      var inner, outer := text[from..to][k..k + |MARKER|], text[from + k..from + k + |MARKER|];
      assert forall j :: 0 <= j < |MARKER| ==> inner[j] == outer[j];
      assert inner == outer;
    }
  }

  lemma {:induction false} MarkerInTail(text: string, tail: string, from: nat, i: nat)
    requires from <= i <= |text| && tail == text[from..]
    ensures MarkerAt(tail, i - from) <==> MarkerAt(text, i)
  {
    assert text[from..|text|] == tail;
    MarkerShift(text, from, |text|, i - from);
  }

  lemma {:induction false} FindShift(text: string, tail: string, from: nat, i: nat)
    requires from <= i <= |text| && tail == text[from..]
    ensures Find(tail, i - from) == if Find(text, i).Some? then Some(Find(text, i).value - from) else None
    decreases |text| - i
  {
    hide MarkerAt;
    MarkerInTail(text, tail, from, i);
    if !MarkerAt(text, i) && i < |text| {
      FindShift(text, tail, from, i + 1);
    }
  }

  lemma {:induction false} BarrenTail(text: string, from: nat)
    requires from <= |text| && Extract(text, from) == []
    ensures Barren(text[from..])
  {
    hide Find, CloseAt;
    FindShift(text, text[from..], from, from);
    var start := Find(text, from);
    if start.Some? {
      CloseShift(text, from, start.value + |MARKER|, 1);
    }
  }

  /** Every text is the print of what is extracted from it: marker-free separators, balanced
      payloads, and a tail holding no further box.  So payloads do not overlap and none is missed. */
  lemma {:induction false} ExtractionDecomposes(text: string, from: nat) returns (seps: seq<string>)
    requires from <= |text|
    ensures |seps| == |Extract(text, from)| + 1
    ensures text[from..] == Printed(seps, Extract(text, from))
    ensures forall i :: 0 <= i < |seps| - 1 ==> MarkerFree(seps[i])
    ensures forall i :: 0 <= i < |seps| - 1 ==> Balanced(Extract(text, from)[i])
    ensures Barren(seps[|seps| - 1])
    decreases |text| - from
  {
    hide Find, CloseAt, Barren, Balanced;
    var boxes := Extract(text, from);
    if boxes == [] {
      seps := [text[from..]];
      BarrenTail(text, from);
    } else {
      var start := Find(text, from).value;
      var content := start + |MARKER|;
      var end := CloseAt(text, content, 1).value;
      assert text[content..content] == [];
      CloseIsBalanced(text, content, content, 1);
      var rest := ExtractionDecomposes(text, end);
      var sep := text[from..start];
      forall k | 0 <= k <= |sep| ensures !MarkerAt(sep, k) {
        MarkerShift(text, from, start, k);
      }
      seps := [sep] + rest;
      assert seps[1..] == rest && boxes[1..] == Extract(text, end);
      SplitAtBox(text, from, start, end);
    }
  }

  lemma {:induction false} SplitAtBox(text: string, from: nat, start: nat, end: nat)
    requires from <= start && MarkerAt(text, start) && start + |MARKER| < end <= |text| && text[end - 1] == '}'
    ensures text[from..] ==
      text[from..start] + MARKER + text[start + |MARKER|..end - 1] + "}" + text[end..]
  {
    assert text[start..start + |MARKER|] == MARKER;
    assert text[end - 1..end] == "}";
  }

  // ------------------------------------------------------------ markers that are never closed

  /** Every closed box, passing over each marker that is never closed. */
  function Skipping(text: string, from: nat): seq<string>
    requires from <= |text|
    decreases |text| - from
  {
    var start := Find(text, from);
    if start.None? then []
    else
      var content := start.value + |MARKER|;
      var end := CloseAt(text, content, 1);
      if end.None? then Skipping(text, content)
      else [text[content..end.value - 1]] + Skipping(text, end.value)
  }

  /** Where the extraction gives up: just after the first marker it cannot close. */
  function GivesUpAt(text: string, from: nat): (at: Option<nat>)
    requires from <= |text|
    ensures at.Some? ==> at.value <= |text|
    decreases |text| - from
  {
    var start := Find(text, from);
    if start.None? then None
    else
      var content := start.value + |MARKER|;
      var end := CloseAt(text, content, 1);
      if end.None? then Some(content) else GivesUpAt(text, end.value)
  }

  predicate ClosedBoxAt(text: string, k: nat) {
    MarkerAt(text, k) && CloseAt(text, k + |MARKER|, 1).Some?
  }

  ghost predicate ClosedBoxAfter(text: string, from: nat) {
    exists k :: from <= k < |text| && ClosedBoxAt(text, k)
  }

  lemma {:induction false} SkippingFindsClosed(text: string, from: nat)
    requires from <= |text|
    ensures Skipping(text, from) != [] <==> ClosedBoxAfter(text, from)
    decreases |text| - from
  {
    hide Find, CloseAt;
    var start := Find(text, from);
    if start.Some? && !ClosedBoxAt(text, start.value) {
      var content := start.value + |MARKER|;
      SkippingFindsClosed(text, content);
      forall k | from <= k < content ensures !ClosedBoxAt(text, k) {
        if start.value < k && MarkerAt(text, k) {
          MarkersDoNotOverlap(text, start.value, k);
        }
      }
    }
  }

  /** An unclosed marker is ignored, as documented, exactly when no closed box follows it: the
      extraction gives up at the first marker it cannot close instead of passing over it. */
  lemma {:induction false} UnclosedIsIgnoredIff(text: string, from: nat)
    requires from <= |text|
    ensures Extract(text, from) == Skipping(text, from) <==>
      GivesUpAt(text, from).None? || !ClosedBoxAfter(text, GivesUpAt(text, from).value)
    decreases |text| - from
  {
    hide Find, CloseAt, ClosedBoxAfter;
    var start := Find(text, from);
    if start.Some? {
      var content := start.value + |MARKER|;
      var end := CloseAt(text, content, 1);
      if end.None? {
        SkippingFindsClosed(text, content);
      } else {
        UnclosedIsIgnoredIff(text, end.value);
        var box := text[content..end.value - 1];
        SameHead(box, Extract(text, end.value), Skipping(text, end.value));
      }
    }
  }

  lemma {:induction false} SameHead(x: string, a: seq<string>, b: seq<string>)
    ensures [x] + a == [x] + b <==> a == b
  {
    assert ([x] + a)[1..] == a && ([x] + b)[1..] == b;
  }

  lemma {:induction false} NestedMarkers(text: string)
    requires text == "\\boxed{\\boxed{1}"
    ensures |text| == 16 && MarkerAt(text, 0) && MarkerAt(text, 7)
    ensures text[14..15] == "1" && Step(text[14]) == 0 && Step(text[15]) == -1
  {
    assert text[0..7] == MARKER && text[7..14] == MARKER;
  }

  /** Here the closed box inside an unclosed one is lost. */
  lemma {:induction false} UnclosedHidesLaterBox()
    ensures Extract("\\boxed{\\boxed{1}", 0) == []
    ensures Skipping("\\boxed{\\boxed{1}", 0) == ["1"]
  {
    var text := "\\boxed{\\boxed{1}";
    NestedMarkers(text);
    LastBox(text);
  }

  lemma {:induction false} LastBox(text: string)
    requires |text| == 16 && MarkerAt(text, 0) && MarkerAt(text, 7)
    requires text[14..15] == "1" && Step(text[14]) == 0 && Step(text[15]) == -1
    ensures Extract(text, 0) == [] && Skipping(text, 0) == ["1"]
  {
    ClosesAtEnd(text);
    OpensAtDepth(text, 7, 1);
    assert Find(text, 16).None?;
    assert Find(text, 7) == Some(7) && Find(text, 0) == Some(0);
    hide Find, CloseAt, MarkerAt;
    assert Skipping(text, 16) == [];
    assert Skipping(text, 7) == [text[14..15]] + [] == ["1"];
  }

  lemma {:induction false} ClosesAtEnd(text: string)
    requires |text| == 16 && Step(text[14]) == 0 && Step(text[15]) == -1
    ensures CloseAt(text, 14, 1) == Some(16) && CloseAt(text, 14, 2).None?
  {
    hide Step;
    CloseMoves(text, 14, 1);
    CloseMoves(text, 15, 1);
    CloseMoves(text, 14, 2);
    CloseMoves(text, 15, 2);
  }

  lemma {:induction false} MarkerOpensOnce(j: nat)
    requires j < |MARKER|
    ensures Step(MARKER[j]) == if j == |MARKER| - 1 then 1 else 0
  {
    assert MARKER[0] != '{' && MARKER[1] != '{' && MARKER[2] != '{' && MARKER[3] != '{';
    assert MARKER[4] != '{' && MARKER[5] != '{' && MARKER[6] == '{';
    assert j == 0 || j == 1 || j == 2 || j == 3 || j == 4 || j == 5 || j == 6;
  }

  lemma {:induction false} MarkerMoves(text: string, s: nat, j: nat, depth: nat)
    requires MarkerAt(text, s) && j < |MARKER| && depth > 0
    ensures CloseAt(text, s + j, depth) == CloseAt(text, s + j + 1, if j == |MARKER| - 1 then depth + 1 else depth)
  {
    assert text[s..s + |MARKER|][j] == text[s + j];
    MarkerOpensOnce(j);
    CloseMoves(text, s + j, depth);
    hide CloseAt, Step, MARKER;
  }

  lemma {:induction false} OpensAtDepth(text: string, s: nat, depth: nat)
    requires MarkerAt(text, s) && depth > 0
    ensures CloseAt(text, s, depth) == CloseAt(text, s + |MARKER|, depth + 1)
  {
    assert |MARKER| == 7;
    hide MarkerAt, CloseAt, MARKER;
    MarkerMoves(text, s, 0, depth);
    MarkerMoves(text, s, 1, depth);
    MarkerMoves(text, s, 2, depth);
    MarkerMoves(text, s, 3, depth);
    MarkerMoves(text, s, 4, depth);
    MarkerMoves(text, s, 5, depth);
    MarkerMoves(text, s, 6, depth);
  }

  lemma {:induction false} CloseMoves(text: string, i: nat, depth: nat)
    requires i < |text| && depth > 0
    ensures CloseAt(text, i, depth) == CloseAt(text, i + 1, depth + Step(text[i]))
  {
  }

  // ------------------------------------------------------------ more text never unsays a box

  lemma {:induction false} CloseStable(t: string, u: string, i: nat, depth: nat)
    requires i <= |t| && CloseAt(t, i, depth).Some?
    ensures CloseAt(t + u, i, depth) == CloseAt(t, i, depth)
    decreases |t| - i
  {
    if depth != 0 {
      CloseStable(t, u, i + 1, depth + Step(t[i]));
    }
  }

  lemma {:induction false} FindStable(t: string, u: string, from: nat)
    requires from <= |t| && Find(t, from).Some?
    ensures Find(t + u, from) == Find(t, from)
  {
    var s := Find(t, from).value;
    forall k | from <= k <= s ensures MarkerAt(t + u, k) <==> MarkerAt(t, k) {
      assert (t + u)[k..k + |MARKER|] == t[k..k + |MARKER|];
    }
    assert MarkerAt(t + u, s);
  }

  /** What is extracted from a text is a prefix of what is extracted from any continuation. */
  lemma {:induction false} ExtractionIsMonotone(t: string, u: string, from: nat)
    requires from <= |t|
    ensures Extract(t, from) <= Extract(t + u, from)
    decreases |t| - from
  {
    hide Find, CloseAt, MarkerAt;
    if Extract(t, from) != [] {
      FindStable(t, u, from);
      var content := Find(t, from).value + |MARKER|;
      CloseStable(t, u, content, 1);
      var end := CloseAt(t, content, 1).value;
      ExtractionIsMonotone(t, u, end);
      assert (t + u)[content..end - 1] == t[content..end - 1];
    }
  }
}

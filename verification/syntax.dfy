/** Hand-written recognisers for the regular expressions of main.ts. Each one follows the
    backtracking order of the JavaScript engine, so that it captures what the regular expression
    captures, and each is related to a declarative reading of the grammar by a soundness and a
    completeness lemma. */
module Syntax {
  import opened Text
  import opened Types

  /** The fence of the `:::` forms. */
  const Marker: string := ":::"

  function Opening(t: AdmType): string {
    Marker + Name(t)
  }

  /** At most one `:::name` opens a text. */
  lemma OpeningUnique(text: string, a: AdmType)
    requires StartsWith(text, Opening(a))
    ensures forall t :: StartsWith(text, Opening(t)) ==> t == a
  {
    forall t | StartsWith(text, Opening(t))
      ensures t == a
    {
      assert text[3] == Opening(t)[3] && text[3] == Opening(a)[3];
    }
  }

  /** `^:::(note|tip|important|warning|caution)`, case-sensitive: the type named right after `:::`. */
  function MarkedType(text: string): (r: Option<AdmType>)
    ensures r.Some? ==> StartsWith(text, Opening(r.value))
    ensures forall t :: StartsWith(text, Opening(t)) ==> r == Some(t)
  {
    if StartsWith(text, Opening(Note)) then OpeningUnique(text, Note); Some(Note)
    else if StartsWith(text, Opening(Tip)) then OpeningUnique(text, Tip); Some(Tip)
    else if StartsWith(text, Opening(Important)) then OpeningUnique(text, Important); Some(Important)
    else if StartsWith(text, Opening(Warning)) then OpeningUnique(text, Warning); Some(Warning)
    else if StartsWith(text, Opening(Caution)) then OpeningUnique(text, Caution); Some(Caution)
    else None
  }

  /** `(?:\s|$)` at position `p`. */
  predicate Boundary(text: string, p: nat) {
    p == |text| || (p < |text| && IsSpace(text[p]))
  }

  /** The reading-mode prefilter `^:::(type)(?:\s|$)` (main.ts:153). */
  function PrefilterType(text: string): (r: Option<AdmType>)
    ensures forall t :: r == Some(t) <==> StartsWith(text, Opening(t)) && Boundary(text, |Opening(t)|)
  {
    match MarkedType(text)
    case None => None
    case Some(t) => if Boundary(text, |Opening(t)|) then Some(t) else None
  }

  // ---------------------------------------------------------------------------------------------
  // The callout form `^>\s*\[!(NOTE|TIP|IMPORTANT|WARNING|CAUTION)\]`, case-insensitive
  // ---------------------------------------------------------------------------------------------

  /** A recognised callout: its type and the text after the `]`. The content shown is that text
      with the prefix pattern and the surrounding white space removed (main.ts:129), which is
      `Trim(rest)`, since the pattern `^>\s*\[![^\]]+\]\s*` ends at the first `]`. */
  datatype Callout = Callout(kind: AdmType, rest: string)

  /** Only a text that starts with `>` can be a callout. */
  lemma CalloutOpens(text: string)
    ensures ParseCallout(text).Some? ==> StartsWith(text, ">")
  {
    if ParseCallout(text).Some? {
      assert text[..1] == [text[0]];
    }
  }

  /** The tag of type `t`, in any case, followed by `]`, at position `p`. */
  predicate TagAt(text: string, p: nat, t: AdmType) {
    var n := |Name(t)|;
    p + n < |text| && EqualsIgnoreCase(text[p..p + n], Name(t)) && text[p + n] == ']'
  }

  lemma TagUnique(text: string, p: nat, a: AdmType)
    requires TagAt(text, p, a)
    ensures forall t :: TagAt(text, p, t) ==> t == a
  {
    forall t | TagAt(text, p, t)
      ensures t == a
    {
      // the five names differ in their first letter, whatever its case
      assert UpperAscii(text[p..p + |Name(t)|][0]) == UpperAscii(Name(t)[0]);
      assert UpperAscii(text[p..p + |Name(a)|][0]) == UpperAscii(Name(a)[0]);
    }
  }

  /** The alternation of tags, tried in order. */
  function CalloutTag(text: string, p: nat): (r: Option<AdmType>)
    ensures r.Some? ==> TagAt(text, p, r.value)
    ensures r.None? ==> !TagAt(text, p, Note) && !TagAt(text, p, Tip) && !TagAt(text, p, Important)
                        && !TagAt(text, p, Warning) && !TagAt(text, p, Caution)
  {
    if TagAt(text, p, Note) then Some(Note)
    else if TagAt(text, p, Tip) then Some(Tip)
    else if TagAt(text, p, Important) then Some(Important)
    else if TagAt(text, p, Warning) then Some(Warning)
    else if TagAt(text, p, Caution) then Some(Caution)
    else None
  }

  /** Whatever tag stands at `p` is the one the alternation finds. */
  lemma CalloutTagFinds(text: string, p: nat, t: AdmType)
    requires TagAt(text, p, t)
    ensures CalloutTag(text, p) == Some(t)
  {
    TagUnique(text, p, CalloutTag(text, p).value);
  }

  /** The callout form (main.ts:120). The greedy `\s*` can only stop before the `[`, so there is
      nothing to backtrack. */
  function ParseCallout(text: string): Option<Callout> {
    if |text| == 0 || text[0] != '>' then None
    else CalloutAfter(text, 1 + SpaceRun(text, 1))
  }

  /** The rest of the callout form, `\[!(TYPE)\]`, with its `[` at `w`. */
  function CalloutAfter(text: string, w: nat): Option<Callout> {
    if w + 2 > |text| || text[w] != '[' || text[w + 1] != '!' then None
    else
      match CalloutTag(text, w + 2)
      case None => None
      case Some(t) => Some(Callout(t, text[w + 3 + |Name(t)|..]))  // after `[!`, the name and `]`
  }

  /** The callout grammar read declaratively: `>`, white space, `[!`, a type name in any case,
      `]`, and the rest. */
  ghost predicate CalloutShape(text: string, t: AdmType, gap: string, tag: string, rest: string) {
    && text == ">" + gap + "[!" + tag + "]" + rest
    && AllSpace(gap)
    && EqualsIgnoreCase(tag, Name(t))
  }

  /** The pieces of a callout shape, as positions in the text. */
  lemma CalloutPositions(text: string, t: AdmType, gap: string, tag: string, rest: string)
    requires CalloutShape(text, t, gap, tag, rest)
    ensures var w := 1 + |gap|;
      && w + 1 < |text| && text[0] == '>' && AllSpace(text[1..w]) && text[w] == '[' && text[w + 1] == '!'
      && TagAt(text, w + 2, t) && text[w + 3 + |Name(t)|..] == rest
  {
    Pieces(text, ">" + gap + "[!", tag, "]", rest, "");
    Pieces(text[..1 + |gap| + 2], ">", gap, "[!", "", "");
    assert text[1 + |gap|..1 + |gap| + 2] == "[!";
  }

  /** A text with `>`, white space, `[!` and a tag at those positions is recognised as a callout. */
  lemma ParseCalloutAt(text: string, t: AdmType, w: nat)
    requires 1 <= w && w + 1 < |text| && text[0] == '>' && AllSpace(text[1..w])
    requires text[w] == '[' && text[w + 1] == '!' && TagAt(text, w + 2, t)
    ensures ParseCallout(text) == Some(Callout(t, text[w + 3 + |Name(t)|..]))
  {
    SpaceRunExact(text, 1, w);
    assert 1 + SpaceRun(text, 1) == w;
    CalloutAfterAt(text, t, w);
  }

  /** `[!`, then a tag at those positions: the rest of the callout form is recognised. */
  lemma CalloutAfterAt(text: string, t: AdmType, w: nat)
    requires w + 1 < |text| && text[w] == '[' && text[w + 1] == '!' && TagAt(text, w + 2, t)
    ensures CalloutAfter(text, w) == Some(Callout(t, text[w + 3 + |Name(t)|..]))
  {
    assert w + 3 + |Name(t)| <= |text|;
    CalloutTagFinds(text, w + 2, t);
    CalloutAfterTag(text, t, w);
  }

  lemma CalloutAfterTag(text: string, t: AdmType, w: nat)
    requires w + 3 + |Name(t)| <= |text| && text[w] == '[' && text[w + 1] == '!'
    requires CalloutTag(text, w + 2) == Some(t)
    ensures CalloutAfter(text, w) == Some(Callout(t, text[w + 3 + |Name(t)|..]))
  {
  }

  /** Every text of the callout shape is recognised, with its type and its rest. */
  lemma CalloutComplete(text: string, t: AdmType, gap: string, tag: string, rest: string)
    requires CalloutShape(text, t, gap, tag, rest)
    ensures ParseCallout(text) == Some(Callout(t, rest))
  {
    CalloutPositions(text, t, gap, tag, rest);
    ParseCalloutAt(text, t, 1 + |gap|);
  }

  /** The callout text around its `[!` and `]`, cut into the pieces of the shape. */
  lemma CalloutPieces(text: string, w: nat, n: nat)
    requires 1 <= w && w + 3 + n <= |text|
    requires text[0] == '>' && text[w] == '[' && text[w + 1] == '!' && text[w + 2 + n] == ']'
    ensures text == ">" + text[1..w] + "[!" + text[w + 2..w + 2 + n] + "]" + text[w + 3 + n..]
  {
    assert text[..w] == ">" + text[1..w];
    assert text[..w + 2] == text[..w] + "[!";
    assert text[..w + 2 + n] == text[..w + 2] + text[w + 2..w + 2 + n];
    assert text[..w + 3 + n] == text[..w + 2 + n] + "]";
    assert text == text[..w + 3 + n] + text[w + 3 + n..];
  }

  /** The white space the greedy `\s*` consumes after the `>`. */
  lemma CalloutGap(text: string, w: nat)
    requires 0 < |text| && w == 1 + SpaceRun(text, 1)
    ensures w <= |text| && AllSpace(text[1..w])
  {
  }

  /** The tag between `[!` and `]`, in any case. */
  lemma CalloutTagText(text: string, t: AdmType, w: nat)
    requires TagAt(text, w + 2, t)
    ensures EqualsIgnoreCase(text[w + 2..w + 2 + |Name(t)|], Name(t)) && text[w + 2 + |Name(t)|] == ']'
  {
  }

  /** The callout text, cut at its `[!` at `w` and its `]`, has the callout shape. */
  lemma CalloutShapeAt(text: string, t: AdmType, w: nat)
    requires 0 < |text| && w == 1 + SpaceRun(text, 1)
    requires text[0] == '>' && w + 1 < |text| && text[w] == '[' && text[w + 1] == '!' && TagAt(text, w + 2, t)
    ensures CalloutShape(text, t, text[1..w], text[w + 2..w + 2 + |Name(t)|], text[w + 3 + |Name(t)|..])
  {
    var n := |Name(t)|;
    CalloutGap(text, w);
    CalloutTagText(text, t, w);
    CalloutPieces(text, w, n);
    var gap, tag, rest := text[1..w], text[w + 2..w + 2 + n], text[w + 3 + n..];
    assert text == ">" + gap + "[!" + tag + "]" + rest;
    assert AllSpace(gap) && EqualsIgnoreCase(tag, Name(t));
  }

  /** Every recognised callout has the callout shape. */
  lemma CalloutSound(text: string)
    requires ParseCallout(text).Some?
    ensures exists gap, tag ::
      CalloutShape(text, ParseCallout(text).value.kind, gap, tag, ParseCallout(text).value.rest)
  {
    var w := 1 + SpaceRun(text, 1);
    var t := CalloutTag(text, w + 2).value;
    CalloutShapeAt(text, t, w);
  }

  // ---------------------------------------------------------------------------------------------
  // The `:::` forms: `(?:\s*\[(.*?)\])?` followed by one of three tails
  // ---------------------------------------------------------------------------------------------

  /** `\s+:::$` at position `x`. The greedy `\s+` can only give back white space, never a `:`,
      so the run must end exactly at the final `:::`. */
  predicate ClosesAt(text: string, x: nat)
    requires x <= |text|
  {
    var n := SpaceRun(text, x);
    n > 0 && x + n + 3 == |text| && text[x + n..] == Marker
  }

  lemma ClosesAtIff(text: string, x: nat)
    requires x <= |text|
    ensures ClosesAt(text, x) <==>
      x + 3 < |text| && AllSpace(text[x..|text| - 3]) && text[|text| - 3..] == Marker
  {
    if x + 3 < |text| && AllSpace(text[x..|text| - 3]) && text[|text| - 3..] == Marker {
      assert text[|text| - 3] == Marker[0];
      SpaceRunExact(text, x, |text| - 3);
    }
  }

  /** Positions of a match or capture. */
  datatype Span = Span(start: nat, end: nat)

  /** The lazy `[\s\S]+?` from `s`: the first end `e >= s + len` after which `\s+:::$` matches. */
  function LazyBody(text: string, s: nat, len: nat): (r: Option<nat>)
    requires s <= |text|
    ensures r.Some? ==> s + len <= r.value <= |text| && ClosesAt(text, r.value)
    ensures r.Some? ==> forall e :: s + len <= e < r.value ==> !ClosesAt(text, e)
    ensures r.None? ==> forall e :: s + len <= e <= |text| ==> !ClosesAt(text, e)
    decreases |text| - (s + len)
  {
    if s + len > |text| then None
    else if ClosesAt(text, s + len) then Some(s + len)
    else LazyBody(text, s, len + 1)
  }

  /** The greedy `\s+` in front of the content gives back one character at a time: the content
      start `q + k` is tried for `k` from the full white-space run down to 1. */
  function GreedyGap(text: string, q: nat, k: nat): (r: Option<Span>)
    requires q + k <= |text|
    ensures r.Some? ==> q < r.value.start <= q + k && r.value.start < r.value.end <= |text|
    ensures r.Some? ==> ClosesAt(text, r.value.end)
    ensures r.Some? ==> forall e :: r.value.start < e < r.value.end ==> !ClosesAt(text, e)
    ensures r.None? && k > 0 ==> forall e :: q + 2 <= e <= |text| ==> !ClosesAt(text, e)
    decreases k
  {
    if k == 0 then None
    else
      match LazyBody(text, q + k, 1)
      case Some(e) => Some(Span(q + k, e))
      case None => GreedyGap(text, q, k - 1)
  }

  /** Where the search for a content start stopped: the chosen start, or `q` when none works. */
  function GapFloor(text: string, q: nat, k: nat): (lo: nat)
    requires q + k <= |text|
    ensures q <= lo <= q + k
  {
    var r := GreedyGap(text, q, k);
    if r.Some? then r.value.start else q
  }

  /** The greedy `\s+` gives back as little as it can: every content start `x` above the one
      `GreedyGap` settles on (above `q` when it finds none) fails to let the lazy body and the
      closing marker match. */
  lemma {:induction false} GreedyGapLargest(text: string, q: nat, k: nat, x: nat)
    requires q + k <= |text| && GapFloor(text, q, k) < x <= q + k
    ensures LazyBody(text, x, 1).None?
    decreases k
  {
    assert k > 0 && LazyBody(text, q + k, 1).None?;
    if x < q + k {
      assert GapFloor(text, q, k) == GapFloor(text, q, k - 1);
      GreedyGapLargest(text, q, k - 1, x);
    }
  }

  /** `\s+([\s\S]+?)\s+:::$` from `q`: the span of the captured content. */
  function BodyFrom(text: string, q: nat): (r: Option<Span>)
    requires q <= |text|
    ensures r.Some? ==> r.value.end <= |text|
  {
    GreedyGap(text, q, SpaceRun(text, q))
  }

  /** The declarative reading of `\s+ body \s+ :::` at `q`, with the body `text[s..e]`. */
  predicate BodySplit(text: string, q: nat, s: nat, e: nat) {
    && q < s < e && e + 3 < |text|
    && AllSpace(text[q..s]) && AllSpace(text[e..|text| - 3]) && text[|text| - 3..] == Marker
  }

  /** What `BodyFrom` captures is a body of the declarative shape. */
  lemma BodyFromSound(text: string, q: nat)
    requires q <= |text| && BodyFrom(text, q).Some?
    ensures BodySplit(text, q, BodyFrom(text, q).value.start, BodyFrom(text, q).value.end)
  {
    var sp := BodyFrom(text, q).value;
    ClosesAtIff(text, sp.end);
  }

  /** Whenever the text has the shape, `BodyFrom` finds a body. */
  lemma BodyFromComplete(text: string, q: nat, s: nat, e: nat)
    requires q <= |text| && BodySplit(text, q, s, e)
    ensures BodyFrom(text, q).Some?
  {
    SpaceRunIsMaximal(text, q, s);
    ClosesAtIff(text, e);
  }

  /** The lazy body search stops at the first place where `\s+:::$` matches. */
  lemma LazyBodyFinds(text: string, s: nat, len: nat, e: nat)
    requires s + len <= e <= |text| && ClosesAt(text, e)
    requires forall x :: s + len <= x < e ==> !ClosesAt(text, x)
    ensures LazyBody(text, s, len) == Some(e)
  {
  }

  /** `\s+:::$` cannot match before a non-space character that precedes the closing `:::`. */
  lemma NotClosingBefore(text: string, x: nat, d: nat)
    requires x <= d && d + 3 < |text| && !IsSpace(text[d])
    ensures !ClosesAt(text, x)
  {
    ClosesAtIff(text, x);
    if x + 3 < |text| {
      assert text[x..|text| - 3][d - x] == text[d];
    }
  }

  /** A body that neither starts nor ends with white space is captured exactly. */
  lemma BodyFromExact(text: string, q: nat, s: nat, e: nat)
    requires q <= |text| && BodySplit(text, q, s, e) && !IsSpace(text[s]) && !IsSpace(text[e - 1])
    ensures BodyFrom(text, q) == Some(Span(s, e))
  {
    SpaceRunExact(text, q, s);
    LazyBodyExact(text, s, e);
    GreedyGapAt(text, q, s - q, e);
  }

  /** A body that ends with a non-space character just before the closing white space and `:::`
      is found by the lazy search, which stops at its end. */
  lemma LazyBodyExact(text: string, s: nat, e: nat)
    requires s < e && e + 3 < |text| && !IsSpace(text[e - 1])
    requires AllSpace(text[e..|text| - 3]) && text[|text| - 3..] == Marker
    ensures LazyBody(text, s, 1) == Some(e)
  {
    ClosesAtIff(text, e);
    forall x | s + 1 <= x < e
      ensures !ClosesAt(text, x)
    {
      NotClosingBefore(text, x, e - 1);
    }
    LazyBodyFinds(text, s, 1, e);
  }

  /** The first content start the greedy gap tries is its full white-space run. */
  lemma GreedyGapAt(text: string, q: nat, k: nat, e: nat)
    requires 0 < k && q + k <= |text| && LazyBody(text, q + k, 1) == Some(e)
    ensures GreedyGap(text, q, k) == Some(Span(q + k, e))
  {
  }

  /** What the regular expression demands after the optional title clause. */
  datatype Tail =
    | BodyThenMarker  // `\s+([\s\S]+?)\s+:::$`, the single-line form (main.ts:156)
    | EndOfText       // `$`, the multi-line start (main.ts:186)
    | SpaceOrEnd      // `(?:\s|$)`, the editor's start line (main.ts:367)

  /** The tail at `q`, with what it captures (the content, for the single-line form). */
  function TailAt(text: string, tail: Tail, q: nat): Option<string>
    requires q <= |text|
  {
    match tail
    case BodyThenMarker =>
      (match BodyFrom(text, q)
       case Some(sp) => Some(text[sp.start..sp.end])
       case None => None)
    case EndOfText => if q == |text| then Some("") else None
    case SpaceOrEnd => if Boundary(text, q) then Some("") else None
  }

  /** The values of `f` from `q` up to, not including, `n`. */
  function Tabulate(f: nat -> Option<string>, q: nat, n: nat): (r: seq<Option<string>>)
    requires q <= n
    ensures |r| == n - q
    decreases n - q
  {
    if q == n then [] else [f(q)] + Tabulate(f, q + 1, n)
  }

  lemma {:induction false} TabulateAt(f: nat -> Option<string>, q: nat, n: nat, x: nat)
    requires q <= x < n
    ensures Tabulate(f, q, n)[x - q] == f(x)
    decreases x - q
  {
    if q < x {
      TabulateAt(f, q + 1, n, x);
    }
  }

  /** Where the tail matches: entry `q` is what it captures from position `q`. The title search
      below consults only this table, so it is written once for the three tails. */
  function TailTable(text: string, tail: Tail): (r: seq<Option<string>>)
    ensures |r| == |text| + 1
  {
    Tabulate((x: nat) => if x <= |text| then TailAt(text, tail, x) else None, 0, |text| + 1)
  }

  /** Each entry of the table is the tail's outcome at that position. */
  lemma TailTableAt(text: string, tail: Tail, x: nat)
    requires x <= |text|
    ensures TailTable(text, tail)[x] == TailAt(text, tail, x)
  {
    TabulateAt((x: nat) => if x <= |text| then TailAt(text, tail, x) else None, 0, |text| + 1, x);
  }

  /** A `]` at `e` after which the tail matches. */
  predicate TitleCloser(text: string, tails: seq<Option<string>>, e: nat) {
    e < |text| && e + 1 < |tails| && text[e] == ']' && tails[e + 1].Some?
  }

  /** The lazy title `(.*?)\]` followed by the tail: the first `]` at or after `c`, reached
      without crossing a line break, after which the tail matches. */
  function TitleEnd(text: string, tails: seq<Option<string>>, c: nat): (r: Option<nat>)
    requires c <= |text|
    ensures r.Some? ==> c <= r.value < |text| && TitleCloser(text, tails, r.value)
    ensures r.Some? ==> NoLineBreak(text[c..r.value])
    ensures r.Some? ==> forall e {:trigger TitleCloser(text, tails, e)} :: c <= e < r.value ==> !TitleCloser(text, tails, e)
    ensures r.None? ==>
      forall e {:trigger TitleCloser(text, tails, e)} ::
        c <= e < |text| && NoLineBreak(text[c..e]) ==> !TitleCloser(text, tails, e)
    decreases |text| - c
  {
    if c == |text| then None
    else if TitleCloser(text, tails, c) then Some(c)
    else if IsLineBreak(text[c]) then None
    else TitleEnd(text, tails, c + 1)
  }

  /** The optional title clause `\s*\[title\]` occupies `text[p..c + 1]`, with its `[` at `w`. */
  predicate TitleClauseAt(text: string, p: nat, w: nat, c: nat) {
    && p <= w < c < |text|
    && AllSpace(text[p..w]) && text[w] == '[' && text[c] == ']' && NoLineBreak(text[w + 1..c])
  }

  datatype Clause = Clause(title: Option<string>, capture: string)

  /** `(?:\s*\[(.*?)\])?` followed by the tail, from `p`. The greedy `?` tries the title first;
      only when no `]` lets the tail match is the group skipped. */
  function TitleThen(text: string, tails: seq<Option<string>>, p: nat): (r: Option<Clause>)
    requires p <= |text| && |tails| == |text| + 1
    ensures r.Some? && r.value.title.Some? ==>
      exists w: nat, c: nat :: TitleClauseAt(text, p, w, c) && r.value.title.value == text[w + 1..c]
                               && tails[c + 1] == Some(r.value.capture)
    ensures r.Some? && r.value.title.None? ==> tails[p] == Some(r.value.capture)
    ensures tails[p].Some? ==> r.Some?
  {
    var w := p + SpaceRun(text, p);
    var close := if w < |text| && text[w] == '[' then TitleEnd(text, tails, w + 1) else None;
    if close.Some? then
      assert TitleClauseAt(text, p, w, close.value);
      Some(Clause(Some(text[w + 1..close.value]), tails[close.value + 1].value))
    else
      match tails[p]
      case Some(x) => Some(Clause(None, x))
      case None => None
  }

  /** The title `TitleThen` reports ends at the first `]` after its `[` that lets the tail match,
      as the lazy `(.*?)` demands: no earlier `]` would have let the tail match. */
  lemma TitleThenFirstCloser(text: string, tails: seq<Option<string>>, p: nat)
    requires p <= |text| && |tails| == |text| + 1
    requires TitleThen(text, tails, p).Some? && TitleThen(text, tails, p).value.title.Some?
    ensures var cl := TitleThen(text, tails, p).value;
      exists w: nat, c: nat :: TitleClauseAt(text, p, w, c) && cl.title.value == text[w + 1..c]
                               && tails[c + 1] == Some(cl.capture)
                               && forall e :: w < e < c ==> !TitleCloser(text, tails, e)
  {
    var w := p + SpaceRun(text, p);
    var c := TitleEnd(text, tails, w + 1).value;
    assert TitleClauseAt(text, p, w, c);
  }

  /** The lazy title search finds a `]` whenever one lets the tail match. */
  lemma {:induction false} TitleEndFinds(text: string, tails: seq<Option<string>>, c0: nat, c: nat)
    requires c0 <= c && TitleCloser(text, tails, c) && NoLineBreak(text[c0..c])
    ensures TitleEnd(text, tails, c0).Some?
    decreases c - c0
  {
    if c0 < c && !TitleCloser(text, tails, c0) {
      assert text[c0..c][0] == text[c0];
      assert text[c0 + 1..c] == text[c0..c][1..];
      TitleEndFinds(text, tails, c0 + 1, c);
    }
  }

  /** A title clause after which the tail matches is always taken. */
  lemma TitleThenPrefersTitle(text: string, tails: seq<Option<string>>, p: nat, w: nat, c: nat)
    requires |tails| == |text| + 1
    requires TitleClauseAt(text, p, w, c) && TitleCloser(text, tails, c)
    ensures TitleThen(text, tails, p).Some? && TitleThen(text, tails, p).value.title.Some?
  {
    SpaceRunExact(text, p, w);
    TitleEndFinds(text, tails, w + 1, c);
  }

  /** Without a `]` in between, the lazy title search stops at the closer `c`. */
  lemma {:induction false} TitleEndExact(text: string, tails: seq<Option<string>>, c0: nat, c: nat)
    requires c0 <= c && TitleCloser(text, tails, c) && NoLineBreak(text[c0..c])
    requires forall x :: c0 <= x < c ==> text[x] != ']'
    ensures TitleEnd(text, tails, c0) == Some(c)
    decreases c - c0
  {
    if c0 < c {
      assert text[c0..c][0] == text[c0];
      assert text[c0 + 1..c] == text[c0..c][1..];
      TitleEndExact(text, tails, c0 + 1, c);
    }
  }

  /** A title clause with no `]` inside its title, after which the tail matches, is captured
      exactly. */
  lemma TitleThenExact(text: string, tails: seq<Option<string>>, p: nat, w: nat, c: nat)
    requires |tails| == |text| + 1
    requires TitleClauseAt(text, p, w, c) && TitleCloser(text, tails, c)
    requires forall x :: w < x < c ==> text[x] != ']'
    ensures TitleThen(text, tails, p) == Some(Clause(Some(text[w + 1..c]), tails[c + 1].value))
  {
    SpaceRunExact(text, p, w);
    assert p + SpaceRun(text, p) == w;
    TitleEndExact(text, tails, w + 1, c);
  }

  /** When the white space from `p` is not followed by `[`, the title group is skipped and the
      tail is tried at `p`. */
  lemma TitleThenBare(text: string, tails: seq<Option<string>>, p: nat, w: nat)
    requires |tails| == |text| + 1 && p <= w <= |text| && AllSpace(text[p..w])
    requires w == |text| || (!IsSpace(text[w]) && text[w] != '[')
    requires tails[p].Some?
    ensures TitleThen(text, tails, p) == Some(Clause(None, tails[p].value))
  {
    SpaceRunExact(text, p, w);
  }

  /** The optional title clause as text: empty when there is no title. */
  function Head(pre: string, title: Option<string>): string {
    if title.Some? then pre + "[" + title.value + "]" else ""
  }

  /** The title clause `text[p..c + 1]`, with its `[` at `w`, as the `Head` of a shape. */
  lemma HeadPieces(text: string, p: nat, w: nat, c: nat)
    requires p <= w < c < |text| && text[w] == '[' && text[c] == ']'
    ensures text[..c + 1] == text[..p] + Head(text[p..w], Some(text[w + 1..c]))
  {
    assert text[..c + 1] == text[..p] + text[p..c + 1];
    assert text[p..c + 1] == text[p..w] + "[" + text[w + 1..c] + "]" by {
      assert text[p..c + 1] == text[p..c] + [text[c]];
      assert text[p..c] == text[p..w] + [text[w]] + text[w + 1..c];
    }
  }

  /** What `TitleThen` takes before its tail: the title clause, as a `Head`, up to `q`, where the
      tail matches with the captured text. */
  lemma TitleThenHead(text: string, tails: seq<Option<string>>, p: nat) returns (q: nat, pre: string)
    requires p <= |text| && |tails| == |text| + 1 && TitleThen(text, tails, p).Some?
    ensures p <= q <= |text| && tails[q] == Some(TitleThen(text, tails, p).value.capture)
    ensures text[..q] == text[..p] + Head(pre, TitleThen(text, tails, p).value.title)
    ensures AllSpace(pre)
    ensures TitleThen(text, tails, p).value.title.Some? ==> NoLineBreak(TitleThen(text, tails, p).value.title.value)
    ensures TitleThen(text, tails, p).value.title.Some? ==> q > p && text[q - 1] == ']'
  {
    var cl := TitleThen(text, tails, p).value;
    if cl.title.Some? {
      var w: nat, c: nat :| TitleClauseAt(text, p, w, c) && cl.title.value == text[w + 1..c]
                            && tails[c + 1] == Some(cl.capture);
      q, pre := c + 1, text[p..w];
      assert text[..q] == text[..p] + Head(pre, cl.title) by {
        HeadPieces(text, p, w, c);
      }
    } else {
      q, pre := p, "";
    }
  }

  // ---------------------------------------------------------------------------------------------
  // The three `:::` recognisers
  // ---------------------------------------------------------------------------------------------

  /** What the table of one tail implies for another: wherever the first matches, so does the
      second. */
  predicate TableImplies(a: seq<Option<string>>, b: seq<Option<string>>) {
    |a| == |b| && forall q :: 0 <= q < |a| && a[q].Some? ==> b[q].Some?
  }

  /** A title clause or tail that the stronger tail accepts, the weaker accepts too. */
  lemma TitleThenWeakens(text: string, a: seq<Option<string>>, b: seq<Option<string>>, p: nat)
    requires p <= |text| && |a| == |text| + 1 && TableImplies(a, b)
    requires TitleThen(text, a, p).Some?
    ensures TitleThen(text, b, p).Some?
  {
    var cl := TitleThen(text, a, p).value;
    if cl.title.Some? {
      var w: nat, c: nat :| TitleClauseAt(text, p, w, c) && a[c + 1].Some?;
      TitleThenPrefersTitle(text, b, p, w, c);
    }
  }

  datatype SingleLine = SingleLine(kind: AdmType, title: Option<string>, content: string)

  /** `^:::(type)(?:\s*\[(.*?)\])?\s+([\s\S]+?)\s+:::$` (main.ts:156). */
  function ParseSingleLine(text: string): Option<SingleLine> {
    match MarkedType(text)
    case None => None
    case Some(t) =>
      match TitleThen(text, TailTable(text, BodyThenMarker), |Opening(t)|)
      case None => None
      case Some(cl) => Some(SingleLine(t, cl.title, cl.capture))
  }

  datatype MultiStart = MultiStart(kind: AdmType, title: Option<string>)

  /** `^:::(type)(?:\s*\[(.*?)\])?$` (main.ts:186). */
  function ParseMultiStart(text: string): Option<MultiStart> {
    match MarkedType(text)
    case None => None
    case Some(t) =>
      match TitleThen(text, TailTable(text, EndOfText), |Opening(t)|)
      case None => None
      case Some(cl) => Some(MultiStart(t, cl.title))
  }

  /** The editor's start-line test `^:::${t}(?:\s*\[.*?\])?(?:\s|$)` for one type (main.ts:367). */
  predicate OpensEditorBlock(text: string, t: AdmType) {
    StartsWith(text, Opening(t)) && TitleThen(text, TailTable(text, SpaceOrEnd), |Opening(t)|).Some?
  }

  /** The single-line grammar read declaratively: `:::type`, an optional `\s*[title]` whose title
      has no line break, at least one white-space character, a non-empty content, at least one
      white-space character and the closing `:::`. */
  ghost predicate SingleLineShape(text: string, t: AdmType, pre: string, title: Option<string>,
                                  gap1: string, body: string, gap2: string) {
    && text == Opening(t) + Head(pre, title) + gap1 + body + gap2 + Marker
    && AllSpace(pre) && (title.Some? ==> NoLineBreak(title.value))
    && gap1 != [] && AllSpace(gap1) && body != [] && gap2 != [] && AllSpace(gap2)
  }

  /** A text that opens with a head and continues with a body split at `q` has the single-line
      shape. */
  lemma SingleLineShapeAt(text: string, t: AdmType, pre: string, title: Option<string>,
                          q: nat, s: nat, e: nat)
    requires q <= |text| && text[..q] == Opening(t) + Head(pre, title)
    requires AllSpace(pre) && (title.Some? ==> NoLineBreak(title.value))
    requires BodySplit(text, q, s, e)
    ensures SingleLineShape(text, t, pre, title, text[q..s], text[s..e], text[e..|text| - 3])
  {
    Reassemble(text, q, s, e, |text| - 3);
  }

  /** Every recognised single-line text has the single-line shape, with the recognised type,
      title and content. */
  lemma SingleLineSound(text: string)
    requires ParseSingleLine(text).Some?
    ensures var r := ParseSingleLine(text).value;
      exists pre, gap1, gap2 :: SingleLineShape(text, r.kind, pre, r.title, gap1, r.content, gap2)
  {
    var t := MarkedType(text).value;
    var p := |Opening(t)|;
    var tails := TailTable(text, BodyThenMarker);
    var q, pre := TitleThenHead(text, tails, p);
    var cl := TitleThen(text, tails, p).value;
    TailTableAt(text, BodyThenMarker, q);
    BodyFromSound(text, q);
    var sp := BodyFrom(text, q).value;
    SingleLineShapeAt(text, t, pre, cl.title, q, sp.start, sp.end);
  }

  /** A single-line form is at least its opening, two white-space characters, one character of
      content and the closing `:::` long. */
  lemma SingleLineMinLength(text: string)
    ensures ParseSingleLine(text).Some? ==> |text| >= |Opening(ParseSingleLine(text).value.kind)| + 6
  {
    if ParseSingleLine(text).Some? {
      SingleLineSound(text);
      var r := ParseSingleLine(text).value;
      var pre, gap1, gap2 :| SingleLineShape(text, r.kind, pre, r.title, gap1, r.content, gap2);
    }
  }

  /** The body of a single-line shape lies between `q` and `e`, after the opening and the head. */
  lemma SingleLineBodyAt(text: string, t: AdmType, pre: string, title: Option<string>,
                         gap1: string, body: string, gap2: string)
    requires SingleLineShape(text, t, pre, title, gap1, body, gap2)
    ensures var q := |Opening(t)| + |Head(pre, title)|;
      StartsWith(text, Opening(t)) && BodySplit(text, q, q + |gap1|, q + |gap1| + |body|)
  {
    var h := Head(pre, title);
    Pieces(text, Opening(t) + h, gap1, body, gap2, Marker);
    assert text[..|Opening(t)|] == (Opening(t) + h)[..|Opening(t)|];
  }

  /** The head of a single-line shape with a title is the opening, `pre` and the bracketed title. */
  lemma SingleLineHeadAt(text: string, t: AdmType, pre: string, title: Option<string>,
                         gap1: string, body: string, gap2: string)
    requires SingleLineShape(text, t, pre, title, gap1, body, gap2) && title.Some?
    ensures |Opening(t)| + |Head(pre, title)| <= |text|
    ensures text[..|Opening(t)| + |Head(pre, title)|] == Opening(t) + pre + "[" + title.value + "]"
  {
    Pieces(text, Opening(t) + Head(pre, title), gap1, body, gap2, Marker);
  }

  /** A text made of an opening, white space and a bracketed title has a title clause. */
  lemma TitleClauseOf(h: string, opening: string, pre: string, title: string)
    requires h == opening + pre + "[" + title + "]" && AllSpace(pre) && NoLineBreak(title)
    ensures TitleClauseAt(h, |opening|, |opening| + |pre|, |h| - 1)
  {
    Pieces(h, opening, pre, "[", title, "]");
  }

  /** A title clause within a prefix of the text is a title clause of the text. */
  lemma TitleClauseInPrefix(text: string, q: nat, p: nat, w: nat, c: nat)
    requires c < q <= |text| && TitleClauseAt(text[..q], p, w, c)
    ensures TitleClauseAt(text, p, w, c)
  {
    assert text[..q][p..w] == text[p..w];
    assert text[..q][w + 1..c] == text[w + 1..c];
  }

  /** A `:::type` text whose body follows the white space at `q` is recognised with that type. */
  lemma SingleLineFromBody(text: string, t: AdmType, q: nat, s: nat, e: nat)
    requires StartsWith(text, Opening(t)) && |Opening(t)| <= q && BodySplit(text, q, s, e)
    ensures TailTable(text, BodyThenMarker)[q].Some?
    ensures q == |Opening(t)| ==> ParseSingleLine(text).Some? && ParseSingleLine(text).value.kind == t
  {
    BodyTail(text, q, s, e);
    if q == |Opening(t)| {
      var tails := TailTable(text, BodyThenMarker);
      var cl := TitleThen(text, tails, q).value;
      ParseSingleLineOf(text, t, cl.title, cl.capture);
    }
  }

  /** Wherever white space, a body and the closing `:::` follow, the single-line tail matches. */
  lemma BodyTail(text: string, q: nat, s: nat, e: nat)
    requires q <= |text| && BodySplit(text, q, s, e)
    ensures TailTable(text, BodyThenMarker)[q].Some?
  {
    BodyFromComplete(text, q, s, e);
    TailTableAt(text, BodyThenMarker, q);
  }

  /** A `:::type` text with a title clause ending at `c`, followed by a body, is recognised with
      that type and a title. */
  lemma SingleLineFromTitle(text: string, t: AdmType, w: nat, q: nat, s: nat, e: nat)
    requires StartsWith(text, Opening(t)) && 0 < q && TitleClauseAt(text, |Opening(t)|, w, q - 1)
    requires BodySplit(text, q, s, e)
    ensures ParseSingleLine(text).Some? && ParseSingleLine(text).value.kind == t
    ensures ParseSingleLine(text).value.title.Some?
  {
    var tails := TailTable(text, BodyThenMarker);
    var p := |Opening(t)|;
    BodyTail(text, q, s, e);
    assert TitleCloser(text, tails, q - 1);
    TitleThenPrefersTitle(text, tails, p, w, q - 1);
    var cl := TitleThen(text, tails, p).value;
    ParseSingleLineOf(text, t, cl.title, cl.capture);
  }

  /** A `:::type` text whose head up to `q` is white space and a bracketed title, followed by a
      body, is recognised with that type and a title. */
  lemma SingleLineFromHead(text: string, t: AdmType, pre: string, title: string, q: nat, s: nat, e: nat)
    requires q <= |text| && text[..q] == Opening(t) + pre + "[" + title + "]"
    requires AllSpace(pre) && NoLineBreak(title) && BodySplit(text, q, s, e)
    ensures ParseSingleLine(text).Some? && ParseSingleLine(text).value.kind == t
    ensures ParseSingleLine(text).value.title.Some?
  {
    HeadClause(text, t, pre, title, q);
    SingleLineFromTitle(text, t, |Opening(t)| + |pre|, q, s, e);
  }

  /** A prefix made of the opening, white space and a bracketed title: the text opens with the
      opening and has a title clause ending just before `q`. */
  lemma HeadClause(text: string, t: AdmType, pre: string, title: string, q: nat)
    requires q <= |text| && text[..q] == Opening(t) + pre + "[" + title + "]"
    requires AllSpace(pre) && NoLineBreak(title)
    ensures 0 < q && StartsWith(text, Opening(t)) && TitleClauseAt(text, |Opening(t)|, |Opening(t)| + |pre|, q - 1)
  {
    var p := |Opening(t)|;
    assert text[..p] == text[..q][..p];
    TitleClauseOf(text[..q], Opening(t), pre, title);
    TitleClauseInPrefix(text, q, p, p + |pre|, q - 1);
  }

  /** Every text of the single-line shape is recognised, with its type; when the shape has a title
      clause, the recognised form has a title too. */
  lemma SingleLineComplete(text: string, t: AdmType, pre: string, title: Option<string>,
                           gap1: string, body: string, gap2: string)
    requires SingleLineShape(text, t, pre, title, gap1, body, gap2)
    ensures ParseSingleLine(text).Some? && ParseSingleLine(text).value.kind == t
    ensures title.Some? ==> ParseSingleLine(text).value.title.Some?
  {
    var p := |Opening(t)|;
    var q := p + |Head(pre, title)|;
    SingleLineBodyAt(text, t, pre, title, gap1, body, gap2);
    if title.Some? {
      SingleLineHeadAt(text, t, pre, title, gap1, body, gap2);
      SingleLineFromHead(text, t, pre, title.value, q, q + |gap1|, q + |gap1| + |body|);
    } else {
      SingleLineFromBody(text, t, q, q + |gap1|, q + |gap1| + |body|);
    }
  }

  /** A `:::type` text whose title search yields `title` and `content` is recognised with them. */
  lemma ParseSingleLineOf(text: string, t: AdmType, title: Option<string>, content: string)
    requires StartsWith(text, Opening(t))
    requires TitleThen(text, TailTable(text, BodyThenMarker), |Opening(t)|) == Some(Clause(title, content))
    ensures ParseSingleLine(text) == Some(SingleLine(t, title, content))
  {
  }

  /** The body of a single-line shape is a slice of the text, with its first and last characters. */
  lemma SingleLineBodyText(text: string, t: AdmType, pre: string, title: Option<string>,
                           gap1: string, body: string, gap2: string)
    requires SingleLineShape(text, t, pre, title, gap1, body, gap2)
    ensures var s := |Opening(t)| + |Head(pre, title)| + |gap1|;
      && s + |body| <= |text| && text[s..s + |body|] == body
      && text[s] == body[0] && text[s + |body| - 1] == body[|body| - 1]
      && AllSpace(text[|Opening(t)| + |Head(pre, title)|..s])
  {
    Pieces(text, Opening(t) + Head(pre, title), gap1, body, gap2, Marker);
  }

  /** A body that neither starts nor ends with white space is what the single-line tail captures. */
  lemma ContentAt(text: string, q: nat, s: nat, e: nat)
    requires q <= |text| && BodySplit(text, q, s, e) && !IsSpace(text[s]) && !IsSpace(text[e - 1])
    ensures TailTable(text, BodyThenMarker)[q] == Some(text[s..e])
  {
    BodyFromExact(text, q, s, e);
    TailTableAt(text, BodyThenMarker, q);
  }

  /** `:::type`, white space and a body that does not start with `[`: recognised without a title. */
  lemma SingleLineBareAt(text: string, t: AdmType, s: nat, e: nat, body: string)
    requires StartsWith(text, Opening(t)) && BodySplit(text, |Opening(t)|, s, e)
    requires !IsSpace(text[s]) && !IsSpace(text[e - 1]) && text[s] != '[' && body == text[s..e]
    ensures ParseSingleLine(text) == Some(SingleLine(t, None, body))
  {
    var p := |Opening(t)|;
    ContentAt(text, p, s, e);
    TitleThenBare(text, TailTable(text, BodyThenMarker), p, s);
    ParseSingleLineOf(text, t, None, text[s..e]);
  }

  /** `:::type`, a title clause whose title holds no `]`, white space and a body: recognised with
      exactly that title and body. */
  lemma SingleLineTitledAt(text: string, t: AdmType, w: nat, q: nat, s: nat, e: nat, title: string, body: string)
    requires StartsWith(text, Opening(t)) && 0 < q && TitleClauseAt(text, |Opening(t)|, w, q - 1)
    requires BodySplit(text, q, s, e) && !IsSpace(text[s]) && !IsSpace(text[e - 1])
    requires title == text[w + 1..q - 1] && body == text[s..e]
    requires forall k :: 0 <= k < |title| ==> title[k] != ']'
    ensures ParseSingleLine(text) == Some(SingleLine(t, Some(title), body))
  {
    var tails := TailTable(text, BodyThenMarker);
    NoBracketInTitle(text, w, q - 1, title);
    ContentAt(text, q, s, e);
    assert TitleCloser(text, tails, q - 1);
    TitleThenExact(text, tails, |Opening(t)|, w, q - 1);
    ParseSingleLineOf(text, t, Some(text[w + 1..q - 1]), text[s..e]);
  }

  /** A title without `]`, read from the text between `w` and `c`. */
  lemma NoBracketInTitle(text: string, w: nat, c: nat, title: string)
    requires w < c <= |text| && title == text[w + 1..c]
    requires forall k :: 0 <= k < |title| ==> title[k] != ']'
    ensures forall x :: w < x < c ==> text[x] != ']'
  {
    forall x | w < x < c
      ensures text[x] != ']'
    {
      assert text[x] == title[x - (w + 1)];
    }
  }

  /** Where the body of a single-line shape lies, as the positional recognisers need it. */
  lemma SingleLineBodyFacts(text: string, t: AdmType, pre: string, title: Option<string>,
                            gap1: string, body: string, gap2: string)
    requires SingleLineShape(text, t, pre, title, gap1, body, gap2)
    requires !IsSpace(body[0]) && !IsSpace(body[|body| - 1])
    ensures var s := |Opening(t)| + |Head(pre, title)| + |gap1|;
      && StartsWith(text, Opening(t)) && BodySplit(text, |Opening(t)| + |Head(pre, title)|, s, s + |body|)
      && !IsSpace(text[s]) && !IsSpace(text[s + |body| - 1]) && body == text[s..s + |body|]
  {
    SingleLineBodyAt(text, t, pre, title, gap1, body, gap2);
    SingleLineBodyText(text, t, pre, title, gap1, body, gap2);
  }

  /** The single-line form without a title is captured exactly when its content does not start
      with `[` (which would open a title clause instead). */
  lemma SingleLineExactBare(text: string, t: AdmType, gap1: string, body: string, gap2: string)
    requires SingleLineShape(text, t, "", None, gap1, body, gap2)
    requires !IsSpace(body[0]) && !IsSpace(body[|body| - 1]) && body[0] != '['
    ensures ParseSingleLine(text) == Some(SingleLine(t, None, body))
  {
    var p := |Opening(t)|;
    assert p + |Head("", None)| == p;
    SingleLineBodyFacts(text, t, "", None, gap1, body, gap2);
    SingleLineBareAt(text, t, p + |gap1|, p + |gap1| + |body|, body);
  }

  /** The multi-line start grammar read declaratively: `:::type` and an optional `\s*[title]`
      whose title has no line break, and nothing else. */
  ghost predicate MultiStartShape(text: string, t: AdmType, pre: string, title: Option<string>) {
    && text == Opening(t) + Head(pre, title)
    && AllSpace(pre) && (title.Some? ==> NoLineBreak(title.value))
  }

  /** Every recognised multi-line start has the multi-line start shape, with the recognised type
      and title. */
  lemma MultiStartSound(text: string)
    requires ParseMultiStart(text).Some?
    ensures exists pre :: MultiStartShape(text, ParseMultiStart(text).value.kind, pre, ParseMultiStart(text).value.title)
  {
    var t := MarkedType(text).value;
    var p := |Opening(t)|;
    var tails := TailTable(text, EndOfText);
    var q, pre := TitleThenHead(text, tails, p);
    TailTableAt(text, EndOfText, q);
    assert text[..q] == text;
    assert MultiStartShape(text, t, pre, TitleThen(text, tails, p).value.title);
  }

  /** The positions of the pieces of a multi-line start shape with a title. */
  lemma MultiStartPositions(text: string, t: AdmType, pre: string, title: Option<string>)
    requires MultiStartShape(text, t, pre, title) && title.Some?
    ensures var w := |Opening(t)| + |pre|;
      && StartsWith(text, Opening(t)) && 0 < |text|
      && TitleClauseAt(text, |Opening(t)|, w, |text| - 1) && text[w + 1..|text| - 1] == title.value
  {
    Pieces(text, Opening(t), pre, "[", title.value, "]");
  }

  /** A title clause that ends the text is the one `TitleThen` takes: its `[` is the first
      character after the white space, and its `]` the only one the end of the text can follow. */
  lemma TitleAtEnd(text: string, p: nat, w: nat)
    requires 0 < |text| && TitleClauseAt(text, p, w, |text| - 1)
    ensures TitleThen(text, TailTable(text, EndOfText), p)
         == Some(Clause(Some(text[w + 1..|text| - 1]), ""))
  {
    var tails := TailTable(text, EndOfText);
    var c := |text| - 1;
    TailTableAt(text, EndOfText, c + 1);
    TitleThenPrefersTitle(text, tails, p, w, c);
    var cl := TitleThen(text, tails, p).value;
    var w': nat, c': nat :| TitleClauseAt(text, p, w', c') && cl.title.value == text[w' + 1..c']
                            && tails[c' + 1] == Some(cl.capture);
    TailTableAt(text, EndOfText, c' + 1);
    SpaceRunExact(text, p, w);
    SpaceRunExact(text, p, w');
    assert w' == w && c' == c;
  }

  /** `:::type` with a title clause that ends the text is a multi-line start with that title. */
  lemma MultiStartWithTitle(text: string, t: AdmType, w: nat, title: string)
    requires StartsWith(text, Opening(t)) && 0 < |text| && TitleClauseAt(text, |Opening(t)|, w, |text| - 1)
    requires title == text[w + 1..|text| - 1]
    ensures ParseMultiStart(text) == Some(MultiStart(t, Some(title)))
  {
    TitleAtEnd(text, |Opening(t)|, w);
  }

  /** `:::type` alone is a multi-line start without a title. */
  lemma MultiStartBare(text: string, t: AdmType)
    requires text == Opening(t)
    ensures ParseMultiStart(text) == Some(MultiStart(t, None))
  {
    assert StartsWith(text, Opening(t));
    TailTableAt(text, EndOfText, |Opening(t)|);
  }

  /** Every text of the multi-line start shape is recognised, with exactly its type and title. */
  lemma MultiStartComplete(text: string, t: AdmType, pre: string, title: Option<string>)
    requires MultiStartShape(text, t, pre, title)
    ensures ParseMultiStart(text) == Some(MultiStart(t, title))
  {
    if title.Some? {
      MultiStartTitled(text, t, pre, title.value);
    } else {
      MultiStartBare(text, t);
    }
  }

  lemma MultiStartTitled(text: string, t: AdmType, pre: string, title: string)
    requires MultiStartShape(text, t, pre, Some(title))
    ensures ParseMultiStart(text) == Some(MultiStart(t, Some(title)))
  {
    MultiStartPositions(text, t, pre, Some(title));
    MultiStartWithTitle(text, t, |Opening(t)| + |pre|, title);
  }

  /** The editor's start-line grammar read declaratively: `:::type`, an optional `\s*[title]`
      whose title has no line break, and then the end of the line or a white-space character
      followed by anything. */
  ghost predicate EditorStartShape(text: string, t: AdmType, pre: string, title: Option<string>, rest: string) {
    && text == Opening(t) + Head(pre, title) + rest
    && AllSpace(pre) && (title.Some? ==> NoLineBreak(title.value))
    && (rest == [] || IsSpace(rest[0]))
  }

  /** Every line the editor takes for the start of a block of type `t` has the start-line shape. */
  lemma EditorStartSound(text: string, t: AdmType)
    requires OpensEditorBlock(text, t)
    ensures exists pre, title, rest :: EditorStartShape(text, t, pre, title, rest)
  {
    var p := |Opening(t)|;
    var tails := TailTable(text, SpaceOrEnd);
    var q, pre := TitleThenHead(text, tails, p);
    TailTableAt(text, SpaceOrEnd, q);
    EditorStartUpTo(text, t, pre, TitleThen(text, tails, p).value.title, q);
  }

  /** A line that opens with the opening and a head up to a boundary at `q` has the start-line
      shape, with the rest of the line after `q`. */
  lemma EditorStartUpTo(text: string, t: AdmType, pre: string, title: Option<string>, q: nat)
    requires StartsWith(text, Opening(t)) && q <= |text| && Boundary(text, q)
    requires text[..q] == text[..|Opening(t)|] + Head(pre, title)
    requires AllSpace(pre) && (title.Some? ==> NoLineBreak(title.value))
    ensures EditorStartShape(text, t, pre, title, text[q..])
  {
    var rest := text[q..];
    assert text == text[..q] + rest;
    assert rest != [] ==> rest[0] == text[q];
  }

  /** The pieces of a start-line shape: the opening and the head end at `q`, where the boundary
      is. */
  lemma EditorStartPieces(text: string, t: AdmType, pre: string, title: Option<string>, rest: string, q: nat)
    requires EditorStartShape(text, t, pre, title, rest) && q == |Opening(t)| + |Head(pre, title)|
    ensures q <= |text| && text[..q] == Opening(t) + Head(pre, title)
    ensures StartsWith(text, Opening(t)) && Boundary(text, q)
  {
    var p := |Opening(t)|;
    assert text[..q] == Opening(t) + Head(pre, title) && text[q..] == rest;
    assert text[..p] == text[..q][..p];
    assert rest != [] ==> text[q] == rest[0];
  }

  /** Every line of the start-line shape for `t` is taken for the start of a block of type `t`. */
  lemma EditorStartComplete(text: string, t: AdmType, pre: string, title: Option<string>, rest: string)
    requires EditorStartShape(text, t, pre, title, rest)
    ensures OpensEditorBlock(text, t)
  {
    var p := |Opening(t)|;
    var q := p + |Head(pre, title)|;
    EditorStartPieces(text, t, pre, title, rest, q);
    if title.Some? {
      EditorStartTitled(text, t, pre, title.value, q);
    } else {
      TailTableAt(text, SpaceOrEnd, q);
    }
  }

  /** A start line with a title clause that ends where the boundary is. */
  lemma EditorStartTitled(text: string, t: AdmType, pre: string, title: string, q: nat)
    requires q <= |text| && text[..q] == Opening(t) + pre + "[" + title + "]"
    requires AllSpace(pre) && NoLineBreak(title) && Boundary(text, q)
    ensures OpensEditorBlock(text, t)
  {
    var p := |Opening(t)|;
    var tails := TailTable(text, SpaceOrEnd);
    HeadClause(text, t, pre, title, q);
    var c := q - 1;
    TailTableAt(text, SpaceOrEnd, c + 1);
    assert TitleCloser(text, tails, c);
    TitleThenPrefersTitle(text, tails, p, p + |pre|, c);
  }

  /** A text that passes the prefilter is no callout, and whichever `:::` form it has names the
      type the prefilter found. */
  lemma PrefilterAgrees(text: string, t: AdmType)
    requires PrefilterType(text) == Some(t)
    ensures text != [] && StartsWith(text, Marker)
    ensures ParseCallout(text).None?
    ensures ParseSingleLine(text).Some? ==> ParseSingleLine(text).value.kind == t
    ensures ParseMultiStart(text).Some? ==> ParseMultiStart(text).value.kind == t
  {
    var o := Opening(t);
    assert text[..3] == Marker by {
      assert text[..3] == text[..|o|][..3];
    }
    assert text[0] == ':' by {
      assert text[..3][0] == text[0];
    }
    assert MarkedType(text) == Some(t);
  }

  /** Reading mode and the editor agree on every text that passes the reading-mode prefilter:
      the editor decorates it as the start of a block of the same type. */
  lemma PrefilterImpliesEditorStart(text: string, t: AdmType)
    requires PrefilterType(text) == Some(t)
    ensures OpensEditorBlock(text, t)
  {
    var p := |Opening(t)|;
    TailTableAt(text, SpaceOrEnd, p);
  }

  /** Every multi-line start that reading mode recognises is an editor start line of its type. */
  lemma MultiStartIsEditorStart(text: string)
    requires ParseMultiStart(text).Some?
    ensures OpensEditorBlock(text, ParseMultiStart(text).value.kind)
  {
    var t := MarkedType(text).value;
    var a, b := TailTable(text, EndOfText), TailTable(text, SpaceOrEnd);
    assert TableImplies(a, b) by {
      forall q | 0 <= q < |a| && a[q].Some?
        ensures b[q].Some?
      {
        TailTableAt(text, EndOfText, q);
        TailTableAt(text, SpaceOrEnd, q);
      }
    }
    TitleThenWeakens(text, a, b, |Opening(t)|);
  }

  /** Every single-line form that reading mode recognises is an editor start line of its type. */
  lemma SingleLineIsEditorStart(text: string)
    requires ParseSingleLine(text).Some?
    ensures OpensEditorBlock(text, ParseSingleLine(text).value.kind)
  {
    var t := MarkedType(text).value;
    var a, b := TailTable(text, BodyThenMarker), TailTable(text, SpaceOrEnd);
    assert TableImplies(a, b) by {
      forall q | 0 <= q < |a| && a[q].Some?
        ensures b[q].Some?
      {
        BodyThenBoundary(text, q);
      }
    }
    TitleThenWeakens(text, a, b, |Opening(t)|);
  }

  /** Wherever a body and the closing `:::` follow, a white-space character follows. */
  lemma BodyThenBoundary(text: string, q: nat)
    requires q <= |text| && TailTable(text, BodyThenMarker)[q].Some?
    ensures TailTable(text, SpaceOrEnd)[q].Some?
  {
    TailTableAt(text, BodyThenMarker, q);
    TailTableAt(text, SpaceOrEnd, q);
    BodyFromSound(text, q);
    assert IsSpace(text[q..BodyFrom(text, q).value.start][0]);
  }
}

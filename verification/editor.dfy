/** Live Preview: the code-block guard on lines and the scan that decorates the start, content
    and end lines of `:::` blocks (main.ts:343-445). */
module Editor {
  import opened Text
  import opened Types
  import opened Syntax

  // ---------------------------------------------------------------------------------------------
  // The document
  // ---------------------------------------------------------------------------------------------

  /** The editor's document as its lines, without their line breaks. A document always has at
      least one line, possibly empty. */
  type Doc = d: seq<string> | |d| > 0 witness [""]

  /** The offset of the first character of line `i`: the lengths of the lines before it, each with
      its line break. `LineFrom(d, i + 1)` is `line.to + 1` of line `i`. */
  function LineFrom(d: seq<string>, i: nat): (r: nat)
    requires i <= |d|
    ensures i <= r
  {
    if i == 0 then 0 else LineFrom(d, i - 1) + |d[i - 1]| + 1
  }

  /** `doc.length`: every character and every line break between two lines. */
  function DocLength(d: Doc): nat {
    LineFrom(d, |d|) - 1
  }

  /** The lines both loops of the scan reach: every line but an empty last one. */
  predicate Visited(d: Doc, i: nat) {
    i < |d| - 1 || (i == |d| - 1 && d[i] != "")
  }

  lemma {:induction false} LineFromGrows(d: seq<string>, i: nat, j: nat)
    requires i < j <= |d|
    ensures LineFrom(d, i) + |d[i]| + 1 <= LineFrom(d, j)
    decreases j - i
  {
    if i + 1 < j {
      LineFromGrows(d, i, j - 1);
    }
  }

  /** The loops test `pos < doc.length` with `pos` the start of a line: that holds exactly for the
      lines `Visited` names, so an empty last line is never looked at. */
  lemma VisitedIff(d: Doc, i: nat)
    requires i <= |d|
    ensures LineFrom(d, i) < DocLength(d) <==> i < |d| && Visited(d, i)
  {
    var n := |d|;
    if i < n - 1 {
      LineFromGrows(d, i, n - 1);
    }
  }

  // ---------------------------------------------------------------------------------------------
  // The code-block guard (main.ts:409-445)
  // ---------------------------------------------------------------------------------------------

  const Fence: string := "```"

  /** `^(\s{4,}|\t)`: four white-space characters or a tab at the start of the line. */
  predicate Indented(text: string) {
    (|text| >= 4 && AllSpace(text[..4])) || (|text| > 0 && text[0] == '\t')
  }

  /** `^```\s*$`: a fence with nothing but white space after it. */
  predicate BareFence(text: string) {
    StartsWith(text, Fence) && AllSpace(text[3..])
  }

  /** The backward walk from the line above `i`: the first line that starts with three backticks
      decides. A bare fence means "not in code"; any other (`^```\w*` matches every such line)
      means "in code". No such line means "not in code". */
  function FenceAbove(d: seq<string>, i: nat): bool
    requires i <= |d|
  {
    if i == 0 then false
    else if BareFence(d[i - 1]) then false
    else if StartsWith(d[i - 1], Fence) then true
    else FenceAbove(d, i - 1)
  }

  /** The nearest line above `i` that starts with three backticks is `f`. */
  predicate NearestFence(d: seq<string>, i: nat, f: nat)
    requires i <= |d|
  {
    f < i && StartsWith(d[f], Fence) && forall g :: f < g < i ==> !StartsWith(d[g], Fence)
  }

  /** The walk says "in code" exactly when the nearest line above that starts with three
      backticks exists and is not a bare fence. */
  lemma {:induction false} FenceAboveIff(d: seq<string>, i: nat)
    requires i <= |d|
    ensures FenceAbove(d, i) <==> exists f: nat :: NearestFence(d, i, f) && !BareFence(d[f])
  {
    if i > 0 {
      if StartsWith(d[i - 1], Fence) {
        if !BareFence(d[i - 1]) {
          assert NearestFence(d, i, i - 1);
        } else {
          forall f: nat | NearestFence(d, i, f)
            ensures f == i - 1
          {
          }
        }
      } else {
        FenceAboveIff(d, i - 1);
        forall f: nat
          ensures NearestFence(d, i, f) <==> NearestFence(d, i - 1, f)
        {
        }
      }
    }
  }

  /** Whether the guard treats line `i` as code. */
  predicate InCodeLine(d: seq<string>, i: nat)
    requires i < |d|
  {
    Indented(d[i]) || FenceAbove(d, i)
  }

  /** `isInsideCodeBlockInEditor` for the line that starts at `line.from`. */
  method IsInsideCodeBlockInEditor(d: seq<string>, i: nat) returns (r: bool)
    requires i < |d|
    ensures r <==> Indented(d[i]) || exists f: nat :: NearestFence(d, i, f) && !BareFence(d[f])
    ensures r == InCodeLine(d, i)
    ensures i == 0 ==> (r <==> Indented(d[0]))
  {
    FenceAboveIff(d, i);
    if Indented(d[i]) {
      return true;
    }
    var n := i;
    while n > 0
      invariant n <= i
      invariant FenceAbove(d, i) == FenceAbove(d, n)
    {
      var check := d[n - 1];
      if BareFence(check) {
        return false;
      }
      if StartsWith(check, Fence) {
        return true;
      }
      n := n - 1;
    }
    return false;
  }

  // ---------------------------------------------------------------------------------------------
  // The decoration scan (main.ts:343-406)
  // ---------------------------------------------------------------------------------------------

  /** The three line classes: `admonition-<type>-start`, `-content` and `-end`. */
  datatype Role = Start | Content | End

  /** A line decoration placed at the start of line `line` (`range(line.from)`). */
  datatype Deco = Deco(line: nat, kind: AdmType, role: Role)

  /** The type loop of one line, from position `k` of `AllTypes` on: disabled types are skipped and
      the first type whose start pattern matches is taken. */
  function StartFrom(s: Settings, text: string, k: nat): (r: Option<AdmType>)
    requires k <= |AllTypes|
    ensures r.Some? ==> Enabled(s, r.value) && OpensEditorBlock(text, r.value)
    ensures r.None? ==> forall m :: k <= m < |AllTypes| ==>
      !(Enabled(s, AllTypes[m]) && OpensEditorBlock(text, AllTypes[m]))
    decreases |AllTypes| - k
  {
    if k == |AllTypes| then None
    else if Enabled(s, AllTypes[k]) && OpensEditorBlock(text, AllTypes[k]) then Some(AllTypes[k])
    else StartFrom(s, text, k + 1)
  }

  function StartType(s: Settings, text: string): Option<AdmType> {
    StartFrom(s, text, 0)
  }

  /** A line starts a block of type `t` exactly when `t` is enabled and the line matches `t`'s start
      pattern; at most one type can match, so the order of the types does not matter. */
  lemma StartTypeIff(s: Settings, text: string, t: AdmType)
    ensures StartType(s, text) == Some(t) <==> Enabled(s, t) && OpensEditorBlock(text, t)
  {
    var r := StartType(s, text);
    if Enabled(s, t) && OpensEditorBlock(text, t) {
      assert t == AllTypes[match t case Note => 0 case Tip => 1 case Important => 2 case Warning => 3 case Caution => 4];
      OpeningUnique(text, t);
    }
  }

  /** The end line of a block: trimmed, exactly `:::` (main.ts:382). */
  predicate IsEnd(text: string) {
    Trim(text) == Marker
  }

  /** The inner loop from line `j` for a block of type `t`, pushing onto `acc`: content lines up to
      the first end line, which is decorated as the end; without an end line it stops at the end
      of the document. */
  function InnerDecos(d: Doc, j: nat, t: AdmType, acc: seq<Deco>): seq<Deco>
    requires j <= |d|
    decreases |d| - j
  {
    if j == |d| || !Visited(d, j) then acc
    else if IsEnd(d[j]) then acc + [Deco(j, t, End)]
    else InnerDecos(d, j + 1, t, acc + [Deco(j, t, Content)])
  }

  /** What visiting line `i` pushes onto `acc`: nothing on a code line or a line that starts no
      block, and otherwise its start decoration followed by the inner loop from the next line. */
  function LineDecos(d: Doc, s: Settings, i: nat, acc: seq<Deco>): seq<Deco>
    requires i < |d|
  {
    if InCodeLine(d, i) then acc
    else match StartType(s, d[i])
      case None => acc
      case Some(t) => InnerDecos(d, i + 1, t, acc + [Deco(i, t, Start)])
  }

  /** The decorations pushed while the outer loop visits the lines before `n`. */
  function DecosUpTo(d: Doc, s: Settings, n: nat): seq<Deco>
    requires n <= |d|
  {
    if n == 0 then []
    else
      var prev := DecosUpTo(d, s, n - 1);
      if Visited(d, n - 1) then LineDecos(d, s, n - 1, prev) else prev
  }

  /** All decorations of the document, in the order they are pushed. The outer loop resumes with
      the line after each start line, not after its end line, so the lines of a block are visited
      again and may start blocks of their own. */
  function Decorations(d: Doc, s: Settings): seq<Deco> {
    DecosUpTo(d, s, |d|)
  }

  /** The inner loop (main.ts:377-399), from `innerPos = line.to + 1`, pushing onto `acc`. */
  method DecorateBlock(d: Doc, t: AdmType, from: nat, acc: seq<Deco>) returns (r: seq<Deco>)
    requires from <= |d|
    ensures r == InnerDecos(d, from, t, acc)
  {
    r := acc;
    var innerPos := LineFrom(d, from);
    var j := from;
    while innerPos < DocLength(d)
      invariant from <= j <= |d| && innerPos == LineFrom(d, j)
      invariant InnerDecos(d, from, t, acc) == InnerDecos(d, j, t, r)
      decreases |d| - j
    {
      VisitedIff(d, j);
      if IsEnd(d[j]) {
        r := r + [Deco(j, t, End)];
        return;
      }
      r := r + [Deco(j, t, Content)];
      innerPos := innerPos + |d[j]| + 1;
      j := j + 1;
    }
    VisitedIff(d, j);
  }

  /** `computeAdmonitionDecorations` before `Decoration.set` sorts the ranges. */
  method ComputeAdmonitionDecorations(d: Doc, s: Settings) returns (r: seq<Deco>)
    ensures r == Decorations(d, s)
  {
    r := [];
    var pos := 0;
    var i := 0;
    while pos < DocLength(d)
      invariant i <= |d| && pos == LineFrom(d, i)
      invariant r == DecosUpTo(d, s, i)
      decreases |d| - i
    {
      VisitedIff(d, i);
      var inCode := IsInsideCodeBlockInEditor(d, i);
      if !inCode {
        var k := 0;
        while k < |AllTypes|
          invariant k <= |AllTypes|
          invariant StartType(s, d[i]) == StartFrom(s, d[i], k)
          invariant r == DecosUpTo(d, s, i)
        {
          var t := AllTypes[k];
          if Enabled(s, t) && OpensEditorBlock(d[i], t) {
            r := DecorateBlock(d, t, i + 1, r + [Deco(i, t, Start)]);
            break;
          }
          k := k + 1;
        }
      }
      pos := pos + |d[i]| + 1;
      i := i + 1;
    }
    VisitedIff(d, i);
  }

  // ---------------------------------------------------------------------------------------------
  // Properties of the decorations
  // ---------------------------------------------------------------------------------------------

  /** Line `i` is reached, is not code, and starts a block of type `t`. */
  predicate StartsBlock(d: Doc, s: Settings, i: nat, t: AdmType) {
    i < |d| && Visited(d, i) && !InCodeLine(d, i) && Enabled(s, t) && OpensEditorBlock(d[i], t)
  }

  /** `x` decorates a line of the block whose inner loop starts at line `j`: a reached line after
      which no end line has come yet, as its end when it is an end line and as content otherwise. */
  predicate InBlock(d: Doc, j: nat, t: AdmType, x: Deco) {
    && x.kind == t && j <= x.line < |d| && Visited(d, x.line) && x.role != Start
    && (x.role == End <==> IsEnd(d[x.line]))
    && forall y :: j <= y < x.line ==> !IsEnd(d[y])
  }

  /** The decorations of the block at `i`: its start, then the lines of the block. */
  predicate Covers(d: Doc, i: nat, t: AdmType, x: Deco) {
    x == Deco(i, t, Start) || InBlock(d, i + 1, t, x)
  }

  lemma InBlockStops(d: Doc, j: nat, t: AdmType, x: Deco)
    requires j == |d| || !Visited(d, j)
    ensures !InBlock(d, j, t, x)
  {
  }

  lemma InBlockAtEnd(d: Doc, j: nat, t: AdmType, x: Deco)
    requires j < |d| && Visited(d, j) && IsEnd(d[j])
    ensures InBlock(d, j, t, x) <==> x == Deco(j, t, End)
  {
    assert InBlock(d, j, t, x) ==> x.line == j;
  }

  lemma InBlockAtContent(d: Doc, j: nat, t: AdmType, x: Deco)
    requires j < |d| && Visited(d, j) && !IsEnd(d[j])
    ensures InBlock(d, j, t, x) <==> x == Deco(j, t, Content) || InBlock(d, j + 1, t, x)
  {
  }

  /** The inner loop adds exactly the decorations of the lines up to, and including, the first end
      line. */
  lemma {:induction false} InnerDecosIff(d: Doc, j: nat, t: AdmType, acc: seq<Deco>, x: Deco)
    requires j <= |d|
    ensures x in InnerDecos(d, j, t, acc) <==> x in acc || InBlock(d, j, t, x)
    decreases |d| - j
  {
    if j == |d| || !Visited(d, j) {
      InBlockStops(d, j, t, x);
    } else if IsEnd(d[j]) {
      InBlockAtEnd(d, j, t, x);
    } else {
      InBlockAtContent(d, j, t, x);
      InnerDecosIff(d, j + 1, t, acc + [Deco(j, t, Content)], x);
    }
  }

  lemma LineDecosIff(d: Doc, s: Settings, i: nat, acc: seq<Deco>, x: Deco)
    requires i < |d| && Visited(d, i)
    ensures x in LineDecos(d, s, i, acc) <==> x in acc || (StartsBlock(d, s, i, x.kind) && Covers(d, i, x.kind, x))
  {
    StartTypeIff(s, d[i], x.kind);
    if !InCodeLine(d, i) && StartType(s, d[i]).Some? {
      var t := StartType(s, d[i]).value;
      StartTypeIff(s, d[i], t);
      InnerDecosIff(d, i + 1, t, acc + [Deco(i, t, Start)], x);
    }
  }

  lemma {:induction false} DecosUpToIff(d: Doc, s: Settings, n: nat, x: Deco)
    requires n <= |d|
    ensures x in DecosUpTo(d, s, n) <==>
      exists i :: 0 <= i < n && StartsBlock(d, s, i, x.kind) && Covers(d, i, x.kind, x)
  {
    if n > 0 {
      DecosUpToIff(d, s, n - 1, x);
      if Visited(d, n - 1) {
        LineDecosIff(d, s, n - 1, DecosUpTo(d, s, n - 1), x);
      }
    }
  }

  /** A decoration is placed exactly when it belongs to a block whose start line is reached, is not
      code, and matches the start pattern of an enabled type. */
  lemma DecorationsIff(d: Doc, s: Settings, x: Deco)
    ensures x in Decorations(d, s) <==>
      exists i :: 0 <= i < |d| && StartsBlock(d, s, i, x.kind) && Covers(d, i, x.kind, x)
  {
    DecosUpToIff(d, s, |d|, x);
  }

  /** Every line that is reached, is not code and matches an enabled type's start pattern is
      decorated as a start, whether or not it lies inside an earlier block; no other line is. A
      switched-off type never gets a start decoration (main.ts:357-374). */
  lemma StartDecorated(d: Doc, s: Settings, i: nat, t: AdmType)
    ensures Deco(i, t, Start) in Decorations(d, s) <==> StartsBlock(d, s, i, t)
  {
    DecorationsIff(d, s, Deco(i, t, Start));
  }

  /** Only enabled types are decorated, and only lines the loops reach: an empty last line never
      carries a decoration (main.ts:350, 378). */
  lemma DecorationsReached(d: Doc, s: Settings, x: Deco)
    requires x in Decorations(d, s)
    ensures Enabled(s, x.kind) && x.line < |d| && Visited(d, x.line)
  {
    DecorationsIff(d, s, x);
  }

  /** A line carries at most one start decoration: the start patterns of two types never match the
      same line, so the first enabled type that matches is the only one (main.ts:360-401). */
  lemma OneStartPerLine(d: Doc, s: Settings, i: nat, t: AdmType, u: AdmType)
    requires Deco(i, t, Start) in Decorations(d, s) && Deco(i, u, Start) in Decorations(d, s)
    ensures t == u
  {
    StartDecorated(d, s, i, t);
    StartDecorated(d, s, i, u);
    OpeningUnique(d[i], t);
  }
}

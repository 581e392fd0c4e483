/** Reading mode: the scan over the paragraphs of a rendered section that replaces admonition
    syntax by admonition containers (main.ts:106-228), and the guard that skips paragraphs inside
    code (main.ts:232-249). The page is abstracted to the paragraphs in document order, each with
    its text and the chain of elements from itself up to the root; the result is the list of
    blocks the scan leaves behind. */
module Reading {
  import opened Text
  import opened Types
  import opened Syntax

  // ---------------------------------------------------------------------------------------------
  // The code guard
  // ---------------------------------------------------------------------------------------------

  /** An element: its tag name, upper-case as `tagName` reports it for HTML, and its class tokens. */
  datatype Element = Element(tag: string, classes: set<string>)

  /** A tag or an exact class token that marks code (main.ts:237-241). */
  predicate CodeLike(e: Element) {
    || e.tag == "CODE" || e.tag == "PRE"
    || "language-" in e.classes || "hljs" in e.classes || "cm-line" in e.classes
  }

  /** Some element of the ancestor-or-self chain marks code. */
  predicate InsideCode(chain: seq<Element>) {
    exists k :: 0 <= k < |chain| && CodeLike(chain[k])
  }

  /** `closest` with a tag selector, from `chain[k]` outwards: the nearest element with that tag. */
  function Closest(chain: seq<Element>, k: nat, tag: string): (r: Option<nat>)
    requires k <= |chain|
    ensures r.Some? ==> k <= r.value < |chain| && chain[r.value].tag == tag
    ensures r.Some? ==> forall j :: k <= j < r.value ==> chain[j].tag != tag
    ensures r.None? ==> forall j :: k <= j < |chain| ==> chain[j].tag != tag
    decreases |chain| - k
  {
    if k == |chain| then None
    else if chain[k].tag == tag then Some(k)
    else Closest(chain, k + 1, tag)
  }

  /** The walk of `isInsideCodeBlock`, including its `closest('pre')` and `closest('code')` tests.
      The result is the same as asking whether any element of the chain marks code: the two
      `closest` tests only find elements the walk reaches anyway. */
  method IsInsideCodeBlock(chain: seq<Element>) returns (b: bool)
    ensures b == InsideCode(chain)
  {
    var k := 0;
    while k < |chain|
      invariant k <= |chain|
      invariant forall j :: 0 <= j < k ==> !CodeLike(chain[j])
    {
      var pre := Closest(chain, k, "PRE");
      var code := Closest(chain, k, "CODE");
      if CodeLike(chain[k]) || pre.Some? || code.Some? {
        if pre.Some? {
          assert CodeLike(chain[pre.value]);
        } else if code.Some? {
          assert CodeLike(chain[code.value]);
        }
        return true;
      }
      k := k + 1;
    }
    return false;
  }

  // ---------------------------------------------------------------------------------------------
  // Paragraphs and blocks
  // ---------------------------------------------------------------------------------------------

  /** A paragraph of the section: its `textContent` and its ancestor-or-self chain. */
  datatype Paragraph = Paragraph(content: string, chain: seq<Element>)

  /** What the recognisers make of one paragraph: its trimmed text, whether it sits inside code,
      and the result of each regular expression the scan may test on that text (main.ts:111-186).
      The scan reads only these; which of them it consults, and in which order, is decided by
      `Step`. */
  datatype View = View(text: string, inCode: bool, callout: Option<Callout>, prefilter: Option<AdmType>,
                       single: Option<SingleLine>, multi: Option<MultiStart>)

  function ViewOf(p: Paragraph): View {
    var text := Trim(p.content);
    View(text, InsideCode(p.chain), ParseCallout(text), PrefilterType(text),
         ParseSingleLine(text), ParseMultiStart(text))
  }

  /** The views of all paragraphs, in document order. */
  function Views(ps: seq<Paragraph>): (vs: seq<View>)
    ensures |vs| == |ps|
  {
    if ps == [] then [] else [ViewOf(ps[0])] + Views(ps[1..])
  }

  lemma {:induction false} ViewsAt(ps: seq<Paragraph>, k: nat)
    requires k < |ps|
    ensures Views(ps)[k] == ViewOf(ps[k])
  {
    if k > 0 {
      ViewsAt(ps[1..], k - 1);
    }
  }

  /** What an admonition container holds: a text, or the paragraphs `from` up to, not including,
      `to`, copied in their original order. */
  datatype Body = Inline(text: string) | Moved(from: nat, to: nat)

  /** What the scan leaves for a run of paragraphs: the paragraph itself, untouched, or an
      admonition container that replaces the paragraphs `start` up to, not including, `stop`. */
  datatype Block =
    | Kept(index: nat)
    | Admonition(kind: AdmType, title: string, body: Body, start: nat, stop: nat)

  /** The first paragraph a block stands for. */
  function Lo(b: Block): nat {
    if b.Kept? then b.index else b.start
  }

  /** One past the last paragraph a block stands for. */
  function Hi(b: Block): nat {
    if b.Kept? then b.index + 1 else b.stop
  }

  /** The closing paragraph of a multi-line admonition: trimmed, exactly `:::` (main.ts:192). */
  predicate IsTerminator(p: Paragraph) {
    Trim(p.content) == Marker
  }

  /** Which paragraphs are terminators, in document order. */
  function Marks(ps: seq<Paragraph>): (ms: seq<bool>)
    ensures |ms| == |ps|
  {
    seq(|ps|, x requires 0 <= x < |ps| => IsTerminator(ps[x]))
  }

  /** The first marked position at or after `j`. */
  function FirstMark(ms: seq<bool>, j: nat): (r: Option<nat>)
    requires j <= |ms|
    ensures r.Some? ==> j <= r.value < |ms| && ms[r.value]
    ensures r.Some? ==> forall k :: j <= k < r.value ==> !ms[k]
    ensures r.None? ==> forall k :: j <= k < |ms| ==> !ms[k]
    decreases |ms| - j
  {
    if j == |ms| then None
    else if ms[j] then Some(j)
    else FirstMark(ms, j + 1)
  }

  /** The search stops at the first mark: when `e` is marked and nothing before it is, the search
      from `j` finds `e`. */
  lemma {:induction false} FirstMarkAt(ms: seq<bool>, j: nat, e: nat)
    requires j <= e < |ms| && ms[e]
    requires forall x :: j <= x < e ==> !ms[x]
    ensures FirstMark(ms, j) == Some(e)
    decreases e - j
  {
    if j < e {
      FirstMarkAt(ms, j + 1, e);
    }
  }

  /** The forward search for the terminator (main.ts:190-199): the first terminator at or after
      `j`. It does not look at whether a paragraph sits inside code. */
  function FirstTerminator(ps: seq<Paragraph>, j: nat): (r: Option<nat>)
    requires j <= |ps|
    ensures r.Some? ==> j <= r.value < |ps|
  {
    FirstMark(Marks(ps), j)
  }

  /** What the search finds is a terminator with none before it; when it finds nothing, there is
      no terminator from `j` on. */
  lemma FirstTerminatorSound(ps: seq<Paragraph>, j: nat)
    requires j <= |ps|
    ensures var r := FirstTerminator(ps, j);
      r.Some? ==> IsTerminator(ps[r.value]) && forall k :: j <= k < r.value ==> !IsTerminator(ps[k])
    ensures FirstTerminator(ps, j).None? ==> forall k :: j <= k < |ps| ==> !IsTerminator(ps[k])
  {
    var ms := Marks(ps);
    var r := FirstMark(ms, j);
    if r.Some? {
      assert ms[r.value];
      forall k | j <= k < r.value
        ensures !IsTerminator(ps[k])
      {
        assert !ms[k];
      }
    } else {
      forall k | j <= k < |ps|
        ensures !IsTerminator(ps[k])
      {
        assert !ms[k];
      }
    }
  }

  /** The search finds `e` when `e` is a terminator and none comes before it. */
  lemma FirstTerminatorAt(ps: seq<Paragraph>, j: nat, e: nat)
    requires j <= e < |ps| && IsTerminator(ps[e])
    requires forall x :: j <= x < e ==> !IsTerminator(ps[x])
    ensures FirstTerminator(ps, j) == Some(e)
  {
    var ms := Marks(ps);
    assert ms[e];
    forall x | j <= x < e
      ensures !ms[x]
    {
      assert !IsTerminator(ps[x]);
    }
    FirstMarkAt(ms, j, e);
  }

  // ---------------------------------------------------------------------------------------------
  // One step of the scan
  // ---------------------------------------------------------------------------------------------

  /** A callout becomes a container with the upper-cased type as its title and the trimmed rest as
      its content, when its type is enabled (main.ts:121-147). */
  function CalloutBlock(s: Settings, i: nat, c: Callout): Block {
    if Enabled(s, c.kind) then Admonition(c.kind, DefaultTitle(c.kind), Inline(Trim(c.rest)), i, i + 1)
    else Kept(i)
  }

  /** A container that takes in paragraphs: the paragraphs strictly between its start and the
      first terminator after it, which it also consumes. */
  predicate TakesInUpToTerminator(ps: seq<Paragraph>, b: Block) {
    && b.Admonition? && b.start < b.stop - 1 < |ps| && b.body == Moved(b.start + 1, b.stop - 1)
    && IsTerminator(ps[b.stop - 1])
    && forall m :: b.start < m < b.stop - 1 ==> !IsTerminator(ps[m])
  }

  /** A multi-line start becomes a container that takes in the paragraphs up to the first
      terminator, when there is one and the type is enabled (main.ts:186-227). */
  function MultiBlock(ps: seq<Paragraph>, s: Settings, i: nat, m: MultiStart): (b: Block)
    requires i < |ps|
    ensures b.Admonition? <==> FirstTerminator(ps, i + 1).Some? && Enabled(s, m.kind)
    ensures b.Admonition? ==>
      var e := FirstTerminator(ps, i + 1).value;
      b == Admonition(m.kind, DisplayTitle(m.kind, m.title), Moved(i + 1, e), i, e + 1)
    ensures b.Admonition? ==> TakesInUpToTerminator(ps, b)
    ensures b.Kept? ==> b == Kept(i)
  {
    match FirstTerminator(ps, i + 1)
    case None => Kept(i)
    case Some(e) =>
      if Enabled(s, m.kind) then
        var b := Admonition(m.kind, DisplayTitle(m.kind, m.title), Moved(i + 1, e), i, e + 1);
        TerminatedBlock(ps, i, e, b);
        b
      else Kept(i)
  }

  /** A container from `i` to the terminator the search finds takes in what lies between. */
  lemma TerminatedBlock(ps: seq<Paragraph>, i: nat, e: nat, b: Block)
    requires i < |ps| && FirstTerminator(ps, i + 1) == Some(e)
    requires b.Admonition? && b.start == i && b.stop == e + 1 && b.body == Moved(i + 1, e)
    ensures TakesInUpToTerminator(ps, b)
  {
    FirstTerminatorSound(ps, i + 1);
  }

  /** The `:::` forms (main.ts:150-227): the prefilter, then the single-line form, then the
      multi-line form. A single-line form of a disabled type is left alone; it is not retried as a
      multi-line start. */
  function ColonBlock(ps: seq<Paragraph>, v: View, s: Settings, i: nat): (b: Block)
    requires i < |ps|
    ensures Lo(b) == i && i < Hi(b) <= |ps|
    ensures b.Admonition? ==> Enabled(s, b.kind) && v.prefilter.Some?
    ensures !StartsWith(v.text, Marker) || v.prefilter.None? ==> b == Kept(i)
    ensures b.Admonition? && b.body.Inline? ==> b.stop == i + 1 && v.single.Some?
    ensures b.Admonition? && b.body.Moved? ==> v.single.None? && v.multi.Some?
    ensures b.Admonition? && b.body.Moved? ==> TakesInUpToTerminator(ps, b)
  {
    if !StartsWith(v.text, Marker) then Kept(i)
    else match v.prefilter
      case None => Kept(i)
      case Some(_) =>
        match v.single
        case Some(m) =>
          if Enabled(s, m.kind) then Admonition(m.kind, DisplayTitle(m.kind, m.title), Inline(m.content), i, i + 1)
          else Kept(i)
        case None =>
          match v.multi
          case None => Kept(i)
          case Some(m) => MultiBlock(ps, s, i, m)
  }

  /** What the scan does with paragraph `i`, whose view is `v` (main.ts:110-227). */
  function Step(ps: seq<Paragraph>, v: View, s: Settings, i: nat): (b: Block)
    requires i < |ps|
    ensures Lo(b) == i && i < Hi(b) <= |ps|
    ensures b.Admonition? ==> Enabled(s, b.kind)
    ensures b.Admonition? ==> v.text != [] && !v.inCode
    ensures b.Admonition? && b.body.Inline? ==> b.stop == i + 1
    ensures b.Admonition? && b.body.Moved? ==> TakesInUpToTerminator(ps, b)
  {
    if v.text == [] || v.inCode then Kept(i)
    else
      match v.callout
      case Some(c) => CalloutBlock(s, i, c)
      case None => ColonBlock(ps, v, s, i)
  }

  // ---------------------------------------------------------------------------------------------
  // The scan
  // ---------------------------------------------------------------------------------------------

  /** The blocks `r` stand for the paragraphs `i` up to `n`, one run after the other, in order. */
  predicate Tiles(r: seq<Block>, i: nat, n: nat) {
    && i <= n && (r == [] <==> i == n)
    && (r != [] ==> Lo(r[0]) == i && Hi(r[|r| - 1]) == n)
    && (forall k :: 0 <= k < |r| ==> Lo(r[k]) < Hi(r[k]))
    && (forall k :: 0 <= k < |r| - 1 ==> Hi(r[k]) == Lo(r[k + 1]))
  }

  /** A block for `i` followed by a tiling of what comes after it tiles from `i`. */
  lemma TilesCons(b: Block, rest: seq<Block>, i: nat, n: nat)
    requires Lo(b) == i < Hi(b) && Tiles(rest, Hi(b), n)
    ensures Tiles([b] + rest, i, n)
  {
    var r := [b] + rest;
    assert forall k :: 1 <= k < |r| ==> r[k] == rest[k - 1];
  }

  /** The scan from paragraph `i`: a block for `i`, then the scan from the first paragraph the
      block does not cover (`i = endIndex` followed by the loop's `i++`, main.ts:227). */
  function Scan(ps: seq<Paragraph>, vs: seq<View>, s: Settings, i: nat): (r: seq<Block>)
    requires |vs| == |ps| && i <= |ps|
    ensures Tiles(r, i, |ps|)
    decreases |ps| - i
  {
    if i == |ps| then []
    else
      var b := Step(ps, vs[i], s, i);
      var rest := Scan(ps, vs, s, Hi(b));
      TilesCons(b, rest, i, |ps|);
      [b] + rest
  }

  /** Every block of the scan is what one step makes of its first paragraph. */
  lemma {:induction false} ScanSteps(ps: seq<Paragraph>, vs: seq<View>, s: Settings, i: nat)
    requires |vs| == |ps| && i <= |ps|
    ensures forall k :: 0 <= k < |Scan(ps, vs, s, i)| ==>
      var j := Lo(Scan(ps, vs, s, i)[k]); j < |ps| && Scan(ps, vs, s, i)[k] == Step(ps, vs[j], s, j)
    decreases |ps| - i
  {
    if i < |ps| {
      var b := Step(ps, vs[i], s, i);
      ScanSteps(ps, vs, s, Hi(b));
      var r, rest := Scan(ps, vs, s, i), Scan(ps, vs, s, Hi(b));
      assert r == [b] + rest;
      assert forall k :: 1 <= k < |r| ==> r[k] == rest[k - 1];
    }
  }

  /** The whole section. */
  function Process(ps: seq<Paragraph>, s: Settings): (r: seq<Block>)
    ensures Tiles(r, 0, |ps|)
  {
    Scan(ps, Views(ps), s, 0)
  }

  // ---------------------------------------------------------------------------------------------
  // Properties of the scan
  // ---------------------------------------------------------------------------------------------

  /** Blocks of a tiling come in increasing order and do not overlap. */
  lemma {:induction false} TilesIncreasing(r: seq<Block>, i: nat, n: nat, a: nat, b: nat)
    requires Tiles(r, i, n) && a < b < |r|
    ensures Hi(r[a]) <= Lo(r[b])
    decreases b - a
  {
    if a + 1 < b {
      TilesIncreasing(r, i, n, a + 1, b);
    }
  }

  /** Each block of a tiling stands for at least one paragraph, so the blocks after `k` need at
      least as many paragraphs as there are of them. */
  lemma {:induction false} TilesBound(r: seq<Block>, i: nat, n: nat, k: nat)
    requires Tiles(r, i, n) && k < |r|
    ensures Hi(r[k]) + (|r| - 1 - k) <= n
    decreases |r| - k
  {
    if k + 1 < |r| {
      TilesBound(r, i, n, k + 1);
    }
  }

  lemma {:induction false} TilesCoverFrom(r: seq<Block>, i: nat, n: nat, j: nat, m: nat)
    requires Tiles(r, i, n) && m < |r| && Lo(r[m]) <= j < n
    ensures exists k :: m <= k < |r| && Lo(r[k]) <= j < Hi(r[k])
    decreases |r| - m
  {
    if Hi(r[m]) <= j {
      TilesCoverFrom(r, i, n, j, m + 1);
    } else {
      assert Lo(r[m]) <= j < Hi(r[m]);
    }
  }

  /** Every paragraph of the section is accounted for by exactly one block of the result. */
  lemma EachParagraphOnce(ps: seq<Paragraph>, s: Settings, j: nat)
    requires j < |ps|
    ensures var r := Process(ps, s); exists k :: 0 <= k < |r| && Lo(r[k]) <= j < Hi(r[k])
    ensures var r := Process(ps, s);
      forall k1, k2 :: 0 <= k1 < |r| && 0 <= k2 < |r| && Lo(r[k1]) <= j < Hi(r[k1]) && Lo(r[k2]) <= j < Hi(r[k2])
        ==> k1 == k2
  {
    var r := Process(ps, s);
    TilesCoverFrom(r, 0, |ps|, j, 0);
    forall k1, k2 | 0 <= k1 < |r| && 0 <= k2 < |r| && Lo(r[k1]) <= j < Hi(r[k1]) && Lo(r[k2]) <= j < Hi(r[k2])
      ensures k1 == k2
    {
      if k1 < k2 {
        TilesIncreasing(r, 0, |ps|, k1, k2);
      } else if k2 < k1 {
        TilesIncreasing(r, 0, |ps|, k2, k1);
      }
    }
  }

  /** A type that is switched off never yields an admonition. */
  lemma AdmonitionsEnabled(ps: seq<Paragraph>, s: Settings)
    ensures forall k :: 0 <= k < |Process(ps, s)| && Process(ps, s)[k].Admonition? ==>
      Enabled(s, Process(ps, s)[k].kind)
  {
    ScanSteps(ps, Views(ps), s, 0);
  }

  lemma {:induction false} KeptIndices(r: seq<Block>, n: nat, k: nat)
    requires Tiles(r, 0, n) && forall m :: 0 <= m < |r| ==> r[m].Kept?
    requires k < |r|
    ensures r[k] == Kept(k)
  {
    if k > 0 {
      KeptIndices(r, n, k - 1);
    }
  }

  /** With every type switched off the section is left exactly as it is. */
  lemma AllDisabledKeepsAll(ps: seq<Paragraph>)
    ensures var r := Process(ps, Settings(false, false, false, false, false));
      |r| == |ps| && forall k :: 0 <= k < |r| ==> r[k] == Kept(k)
  {
    var s := Settings(false, false, false, false, false);
    var r := Process(ps, s);
    AdmonitionsEnabled(ps, s);
    assert forall m :: 0 <= m < |r| ==> r[m].Kept?;
    forall k | 0 <= k < |r|
      ensures r[k] == Kept(k)
    {
      KeptIndices(r, |ps|, k);
    }
    if r != [] {
      assert Hi(r[|r| - 1]) == |r|;
    }
  }

  /** The block that starts at paragraph `j` is what one step makes of `j`. */
  lemma BlockAt(ps: seq<Paragraph>, s: Settings, k: nat)
    requires k < |Process(ps, s)|
    ensures var j := Lo(Process(ps, s)[k]); j < |ps| && Process(ps, s)[k] == Step(ps, Views(ps)[j], s, j)
  {
    ScanSteps(ps, Views(ps), s, 0);
  }

  // What the view of paragraph `j` records, stated without unfolding the recognisers next to the
  // scan.

  lemma ViewAt(ps: seq<Paragraph>, j: nat)
    requires j < |ps|
    ensures var v := Views(ps)[j]; var text := Trim(ps[j].content);
      && v.text == text && v.inCode == InsideCode(ps[j].chain) && v.callout == ParseCallout(text)
      && v.prefilter == PrefilterType(text) && v.single == ParseSingleLine(text)
      && v.multi == ParseMultiStart(text)
  {
    ViewsAt(ps, j);
  }

  // What one step does, read off the view.

  lemma StepPlain(ps: seq<Paragraph>, v: View, s: Settings, i: nat)
    requires i < |ps|
    requires v.text == [] || v.inCode || (v.callout.None? && (!StartsWith(v.text, Marker) || v.prefilter.None?))
    ensures Step(ps, v, s, i) == Kept(i)
  {
  }

  lemma StepCallout(ps: seq<Paragraph>, v: View, s: Settings, i: nat, c: Callout)
    requires i < |ps| && v.text != [] && !v.inCode && v.callout == Some(c)
    ensures Step(ps, v, s, i) == CalloutBlock(s, i, c)
  {
  }

  lemma StepDisabledKept(ps: seq<Paragraph>, v: View, s: Settings, i: nat, t: AdmType)
    requires i < |ps| && v.callout.None? && v.prefilter == Some(t) && !Enabled(s, t)
    requires v.single.Some? ==> v.single.value.kind == t
    requires v.multi.Some? ==> v.multi.value.kind == t
    ensures Step(ps, v, s, i) == Kept(i)
  {
  }

  lemma StepSingle(ps: seq<Paragraph>, v: View, s: Settings, i: nat, m: SingleLine)
    requires i < |ps| && v.text != [] && !v.inCode && v.callout.None?
    requires StartsWith(v.text, Marker) && v.prefilter.Some? && v.single == Some(m)
    requires Enabled(s, m.kind)
    ensures Step(ps, v, s, i) == Admonition(m.kind, DisplayTitle(m.kind, m.title), Inline(m.content), i, i + 1)
  {
  }

  lemma StepMulti(ps: seq<Paragraph>, v: View, s: Settings, i: nat, m: MultiStart, e: nat)
    requires i < |ps| && v.text != [] && !v.inCode && v.callout.None?
    requires StartsWith(v.text, Marker) && v.prefilter.Some? && v.single.None?
    requires v.multi == Some(m) && FirstTerminator(ps, i + 1) == Some(e) && Enabled(s, m.kind)
    ensures Step(ps, v, s, i) == Admonition(m.kind, DisplayTitle(m.kind, m.title), Moved(i + 1, e), i, e + 1)
  {
  }

  /** The same, with the terminator given as the first paragraph after `i` that trims to `:::`. */
  lemma StepMultiUpTo(ps: seq<Paragraph>, v: View, s: Settings, i: nat, m: MultiStart, e: nat)
    requires i < |ps| && v.text != [] && !v.inCode && v.callout.None?
    requires StartsWith(v.text, Marker) && v.prefilter.Some? && v.single.None?
    requires v.multi == Some(m) && Enabled(s, m.kind) && NextTerminator(ps, i, e)
    ensures Step(ps, v, s, i) == Admonition(m.kind, DisplayTitle(m.kind, m.title), Moved(i + 1, e), i, e + 1)
  {
    NextTerminatorIsFirst(ps, i, e);
    StepMulti(ps, v, s, i, m, e);
  }

  // What the scan does with each kind of paragraph.

  /** Paragraphs that are empty after trimming, sit inside code, or are neither a callout nor pass
      the `:::` prefilter are left untouched: a plain quote such as `> text`, ordinary prose, and
      `:::note[Title]` alike (main.ts:111-118, 120-124, 150-153). */
  lemma UntouchedKept(ps: seq<Paragraph>, s: Settings, k: nat, j: nat)
    requires k < |Process(ps, s)| && Lo(Process(ps, s)[k]) == j < |ps|
    requires var text := Trim(ps[j].content);
      text == [] || InsideCode(ps[j].chain) || (ParseCallout(text).None? && PrefilterType(text).None?)
    ensures Process(ps, s)[k] == Kept(j)
  {
    BlockAt(ps, s, k);
    ViewAt(ps, j);
    StepPlain(ps, Views(ps)[j], s, j);
  }

  /** An enabled callout becomes a container with the upper-cased type as its title and the
      trimmed rest as its content; a switched-off one is left untouched (main.ts:120-147). */
  lemma CalloutParagraph(ps: seq<Paragraph>, s: Settings, k: nat, j: nat, c: Callout)
    requires k < |Process(ps, s)| && Lo(Process(ps, s)[k]) == j < |ps|
    requires ParseCallout(Trim(ps[j].content)) == Some(c) && !InsideCode(ps[j].chain)
    ensures Enabled(s, c.kind) ==>
      Process(ps, s)[k] == Admonition(c.kind, DefaultTitle(c.kind), Inline(Trim(c.rest)), j, j + 1)
    ensures !Enabled(s, c.kind) ==> Process(ps, s)[k] == Kept(j)
  {
    BlockAt(ps, s, k);
    ViewAt(ps, j);
    CalloutOpens(Trim(ps[j].content));
    StepCallout(ps, Views(ps)[j], s, j, c);
  }

  /** A `:::` paragraph of a switched-off type is left untouched, whichever form it has; the scan
      resumes with the next paragraph (main.ts:158-161, 203-205). */
  lemma DisabledTypeKept(ps: seq<Paragraph>, s: Settings, k: nat, j: nat, t: AdmType)
    requires k < |Process(ps, s)| && Lo(Process(ps, s)[k]) == j < |ps|
    requires PrefilterType(Trim(ps[j].content)) == Some(t) && !Enabled(s, t)
    ensures Process(ps, s)[k] == Kept(j)
    ensures k + 1 < |Process(ps, s)| ==> Lo(Process(ps, s)[k + 1]) == j + 1
  {
    BlockAt(ps, s, k);
    PrefilterAgrees(Trim(ps[j].content), t);
    ViewAt(ps, j);
    StepDisabledKept(ps, Views(ps)[j], s, j, t);
  }

  /** An enabled single-line form becomes a container with its title, or the upper-cased type,
      and its content (main.ts:156-180). */
  lemma SingleLineParagraph(ps: seq<Paragraph>, s: Settings, k: nat, j: nat, t: AdmType, m: SingleLine)
    requires k < |Process(ps, s)| && Lo(Process(ps, s)[k]) == j < |ps|
    requires PrefilterType(Trim(ps[j].content)) == Some(t) && ParseSingleLine(Trim(ps[j].content)) == Some(m)
    requires !InsideCode(ps[j].chain) && Enabled(s, t)
    ensures m.kind == t
    ensures Process(ps, s)[k] == Admonition(t, DisplayTitle(t, m.title), Inline(m.content), j, j + 1)
  {
    BlockAt(ps, s, k);
    PrefilterAgrees(Trim(ps[j].content), t);
    ViewAt(ps, j);
    StepSingle(ps, Views(ps)[j], s, j, m);
  }

  /** Paragraph `p` opens a multi-line admonition `m` of type `t`: it is outside code, passes the
      prefilter, is not a single-line form and matches the multi-line start. */
  predicate MultiStartParagraph(p: Paragraph, t: AdmType, m: MultiStart) {
    var text := Trim(p.content);
    && !InsideCode(p.chain)
    && PrefilterType(text) == Some(t) && ParseSingleLine(text).None? && ParseMultiStart(text) == Some(m)
  }

  /** `e` is the first terminator after paragraph `j`. */
  predicate NextTerminator(ps: seq<Paragraph>, j: nat, e: nat) {
    j < e < |ps| && IsTerminator(ps[e]) && forall x :: j < x < e ==> !IsTerminator(ps[x])
  }

  lemma NextTerminatorIsFirst(ps: seq<Paragraph>, j: nat, e: nat)
    requires NextTerminator(ps, j, e)
    ensures FirstTerminator(ps, j + 1) == Some(e)
  {
    FirstTerminatorAt(ps, j + 1, e);
  }

  /** An enabled multi-line start with a terminator `e` after it becomes a container titled by its
      title, or the upper-cased type, that takes in the paragraphs strictly between the two; the
      scan resumes after the terminator (main.ts:186-227). */
  lemma MultiLineParagraph(ps: seq<Paragraph>, s: Settings, k: nat, j: nat, t: AdmType, m: MultiStart, e: nat)
    requires k < |Process(ps, s)| && Lo(Process(ps, s)[k]) == j
    requires NextTerminator(ps, j, e) && MultiStartParagraph(ps[j], t, m) && Enabled(s, t)
    ensures m.kind == t
    ensures Process(ps, s)[k] == Admonition(t, DisplayTitle(t, m.title), Moved(j + 1, e), j, e + 1)
    ensures k + 1 < |Process(ps, s)| ==> Lo(Process(ps, s)[k + 1]) == e + 1
  {
    BlockAt(ps, s, k);
    PrefilterAgrees(Trim(ps[j].content), t);
    ViewAt(ps, j);
    StepMultiUpTo(ps, Views(ps)[j], s, j, m, e);
  }

  /** The terminator of a multi-line admonition is the first paragraph after its start that trims
      to `:::`, and the paragraphs it takes in lie strictly between the two (main.ts:190-227). */
  lemma MovedBetween(ps: seq<Paragraph>, s: Settings, k: nat)
    requires k < |Process(ps, s)|
    requires Process(ps, s)[k].Admonition? && Process(ps, s)[k].body.Moved?
    ensures TakesInUpToTerminator(ps, Process(ps, s)[k])
  {
    BlockAt(ps, s, k);
  }

  /** Without a later paragraph that trims to `:::`, no paragraph is taken in: the block at `j`
      stands for `j` alone and the scan resumes with `j + 1` (main.ts:201-202). */
  lemma NoTerminatorNoMove(ps: seq<Paragraph>, s: Settings, k: nat)
    requires k < |Process(ps, s)|
    requires forall m :: Lo(Process(ps, s)[k]) < m < |ps| ==> !IsTerminator(ps[m])
    ensures Hi(Process(ps, s)[k]) == Lo(Process(ps, s)[k]) + 1
    ensures k + 1 < |Process(ps, s)| ==> Lo(Process(ps, s)[k + 1]) == Lo(Process(ps, s)[k]) + 1
  {
    BlockAt(ps, s, k);
  }

  /** A multi-line start with no later paragraph that trims to `:::` is left untouched, whether
      or not its type is enabled (main.ts:186-202). */
  lemma UnterminatedKept(ps: seq<Paragraph>, s: Settings, k: nat, j: nat, t: AdmType, m: MultiStart)
    requires k < |Process(ps, s)| && Lo(Process(ps, s)[k]) == j < |ps|
    requires MultiStartParagraph(ps[j], t, m)
    requires forall x :: j < x < |ps| ==> !IsTerminator(ps[x])
    ensures Process(ps, s)[k] == Kept(j)
  {
    BlockAt(ps, s, k);
    PrefilterAgrees(Trim(ps[j].content), t);
    ViewAt(ps, j);
    FirstTerminatorSound(ps, j + 1);
  }
}

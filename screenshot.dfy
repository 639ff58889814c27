/** The layout computed by the screenshot script: prompt styling of the
  * first lines, the image width, the greedy split of the lines into parts
  * whose top padding and lines fit under the maximum image height (the
  * bottom padding comes on top, and a single line may exceed the limit),
  * and the vertical position of every line drawn. Text measurement belongs to the imaging library and is
  * a parameter here; drawing and saving images are not modelled.
  */
module Screenshot {

  const LineSpacing := 5
  const Padding := 20
  const MaxImageHeight := 800
  const Prompt := "$ "
  /** The first lines of the input are commands and get the prompt. */
  const CommandLines := 3

  /** Width and height of the bounding box of a rendered text. */
  datatype TextSize = TextSize(width: nat, height: nat)

  /** One image part: its number, the index of its first line, its lines,
    * its height in pixels and the y coordinate of each of its lines. */
  datatype Part = Part(number: nat, start: nat, lines: seq<string>, height: nat, rows: seq<nat>)

  /** Vertical space taken by lines lo .. hi-1, each followed by the spacing. */
  function Span(heights: seq<nat>, lo: nat, hi: nat): (r: nat)
    requires lo <= hi <= |heights|
    decreases hi
  {
    if hi == lo then 0 else Span(heights, lo, hi - 1) + heights[hi - 1] + LineSpacing
  }

  /** Lines only add height: each further line adds at least the spacing. */
  lemma {:induction false} SpanGrows(heights: seq<nat>, lo: nat, a: nat, b: nat)
    requires lo <= a <= b <= |heights|
    ensures Span(heights, lo, a) + (b - a) * LineSpacing <= Span(heights, lo, b)
    decreases b
  {
    if a < b {
      SpanGrows(heights, lo, a, b - 1);
    }
  }

  // ---------------------------------------------------------------- styling

  ghost predicate IsStyled(lines: seq<string>, styled: seq<string>) {
    |styled| == |lines| &&
    forall i :: 0 <= i < |lines| ==>
      styled[i] == if i < CommandLines then Prompt + lines[i] else lines[i]
  }

  method StyleLines(lines: seq<string>) returns (styled: seq<string>)
    ensures IsStyled(lines, styled)
  {
    styled := [];
    for i := 0 to |lines|
      invariant |styled| == i
      invariant forall j :: 0 <= j < i ==>
        styled[j] == if j < CommandLines then Prompt + lines[j] else lines[j]
    {
      if i < CommandLines {
        styled := styled + [Prompt + lines[i]];
      } else {
        styled := styled + [lines[i]];
      }
    }
  }

  /** The drawing step splits a command line back into the prompt, drawn in
    * its own colour, and the rest, which is the original line. */
  lemma CommandLinesSplitBack(lines: seq<string>, styled: seq<string>, i: nat)
    requires IsStyled(lines, styled) && i < |lines| && i < CommandLines
    ensures |styled[i]| >= |Prompt| && styled[i][..|Prompt|] == Prompt
    ensures styled[i][|Prompt|..] == lines[i]
  {
    assert styled[i] == Prompt + lines[i];
  }

  // ------------------------------------------------------------ measurement

  /** Heights of the styled lines, and the widest line's width. */
  method MeasureLines(styled: seq<string>, measure: string -> TextSize)
    returns (maxWidth: nat, heights: seq<nat>)
    ensures |heights| == |styled|
    ensures forall i :: 0 <= i < |styled| ==> heights[i] == measure(styled[i]).height
    ensures forall i :: 0 <= i < |styled| ==> measure(styled[i]).width <= maxWidth
    ensures maxWidth == 0 || exists i :: 0 <= i < |styled| && measure(styled[i]).width == maxWidth
  {
    maxWidth := 0;
    heights := [];
    for i := 0 to |styled|
      invariant |heights| == i
      invariant forall j :: 0 <= j < i ==> heights[j] == measure(styled[j]).height
      invariant forall j :: 0 <= j < i ==> measure(styled[j]).width <= maxWidth
      invariant maxWidth == 0 || exists j :: 0 <= j < i && measure(styled[j]).width == maxWidth
    {
      var size := measure(styled[i]);
      if size.width > maxWidth {
        maxWidth := size.width;
      }
      heights := heights + [size.height];
    }
  }

  // ------------------------------------------------------------- pagination

  /** `count` lines from `start` form a part the greedy rule produces: at
    * least one line; more than one only if they fit under the maximum
    * height; and, unless the input ends there, one more line would not fit. */
  ghost predicate GreedyPart(heights: seq<nat>, start: nat, count: nat) {
    1 <= count && start + count <= |heights| &&
    (count >= 2 ==> Padding + Span(heights, start, start + count) <= MaxImageHeight) &&
    (start + count < |heights| ==> Padding + Span(heights, start, start + count + 1) > MaxImageHeight)
  }

  /** The greedy rule fixes the length of a part once its start is known. */
  lemma GreedyPartUnique(heights: seq<nat>, start: nat, a: nat, b: nat)
    requires GreedyPart(heights, start, a) && GreedyPart(heights, start, b)
    ensures a == b
  {
    if a < b {
      SpanGrows(heights, start, start + a + 1, start + b);
    } else if b < a {
      SpanGrows(heights, start, start + b + 1, start + a);
    }
  }

  /** The inner loop: collect lines from `start` while they fit, taking the
    * first line whatever its height. Returns the lines and the height so far
    * (top padding and the lines, without the bottom padding). */
  method FillPart(styled: seq<string>, heights: seq<nat>, start: nat)
    returns (lines: seq<string>, height: nat)
    requires |heights| == |styled| && start < |styled|
    ensures GreedyPart(heights, start, |lines|)
    ensures lines == styled[start..start + |lines|]
    ensures height == Padding + Span(heights, start, start + |lines|)
  {
    lines := [];
    height := Padding;
    var current := start;
    while current < |styled|
      invariant start <= current <= |styled|
      invariant lines == styled[start..current]
      invariant height == Padding + Span(heights, start, current)
      invariant |lines| >= 2 ==> height <= MaxImageHeight
    {
      var lineHeight := heights[current] + LineSpacing;
      if height + lineHeight > MaxImageHeight && |lines| > 0 {
        break;
      }
      height := height + lineHeight;
      lines := lines + [styled[current]];
      current := current + 1;
    }
  }

  /** The drawing loop: the y coordinate of each line of a part. */
  method RowPositions(heights: seq<nat>, start: nat, count: nat) returns (rows: seq<nat>)
    requires start + count <= |heights|
    ensures |rows| == count
    ensures forall i :: 0 <= i < count ==> rows[i] == Padding + Span(heights, start, start + i)
  {
    rows := [];
    var y := Padding;
    for i := 0 to count
      invariant |rows| == i
      invariant y == Padding + Span(heights, start, start + i)
      invariant forall j :: 0 <= j < i ==> rows[j] == Padding + Span(heights, start, start + j)
    {
      rows := rows + [y];
      y := y + heights[start + i] + LineSpacing;
    }
  }

  /** The lines of the parts, in order. */
  function Flatten(parts: seq<Part>): seq<string> {
    if parts == [] then [] else Flatten(parts[..|parts| - 1]) + parts[|parts| - 1].lines
  }

  /** Part `k` of a layout: numbered k+1, a greedy run of lines from its start,
    * padded at top and bottom, each line drawn below the ones before it. */
  ghost predicate PartOk(styled: seq<string>, heights: seq<nat>, k: nat, p: Part) {
    |heights| == |styled| &&
    p.number == k + 1 &&
    GreedyPart(heights, p.start, |p.lines|) &&
    p.lines == styled[p.start..p.start + |p.lines|] &&
    p.height == Padding + Span(heights, p.start, p.start + |p.lines|) + Padding &&
    |p.rows| == |p.lines| &&
    forall i :: 0 <= i < |p.rows| ==> p.rows[i] == Padding + Span(heights, p.start, p.start + i)
  }

  /** Every part well formed and starting where the parts before it end. */
  ghost predicate PartsInOrder(styled: seq<string>, heights: seq<nat>, parts: seq<Part>) {
    forall k {:trigger parts[k]} :: 0 <= k < |parts| ==>
      parts[k].start == |Flatten(parts[..k])| && PartOk(styled, heights, k, parts[k])
  }

  /** A layout of the styled lines: parts in order that together hold
    * exactly the lines. */
  ghost predicate Paginated(styled: seq<string>, heights: seq<nat>, parts: seq<Part>) {
    |heights| == |styled| &&
    Flatten(parts) == styled &&
    PartsInOrder(styled, heights, parts)
  }

  /** Appending a well-formed part where the others end keeps them in order. */
  lemma ExtendParts(styled: seq<string>, heights: seq<nat>, parts: seq<Part>, part: Part)
    requires PartsInOrder(styled, heights, parts)
    requires part.start == |Flatten(parts)| && PartOk(styled, heights, |parts|, part)
    ensures PartsInOrder(styled, heights, parts + [part])
    ensures Flatten(parts + [part]) == Flatten(parts) + part.lines
  {
    var extended := parts + [part];
    assert extended[..|parts|] == parts;
    forall k | 0 <= k < |extended|
      ensures extended[k].start == |Flatten(extended[..k])|
      ensures PartOk(styled, heights, k, extended[k])
    {
      if k < |parts| {
        assert extended[..k] == parts[..k];
      }
    }
  }

  /** Two parts at the same position and start are the same part. */
  lemma PartDetermined(styled: seq<string>, heights: seq<nat>, k: nat, a: Part, b: Part)
    requires PartOk(styled, heights, k, a) && PartOk(styled, heights, k, b)
    requires a.start == b.start
    ensures a == b
  {
    GreedyPartUnique(heights, a.start, |a.lines|, |b.lines|);
    assert a.rows == b.rows;
  }

  /** One iteration of the outer loop: part `k`, starting at line `start`,
    * with its lines, its height and where each line is drawn. */
  method MakePart(styled: seq<string>, heights: seq<nat>, k: nat, start: nat) returns (part: Part)
    requires |heights| == |styled| && start < |styled|
    ensures part.start == start && PartOk(styled, heights, k, part)
    ensures 1 <= |part.lines| && start + |part.lines| <= |styled|
    ensures part.lines == styled[start..start + |part.lines|]
  {
    var lines, height := FillPart(styled, heights, start);
    height := height + Padding;
    var rows := RowPositions(heights, start, |lines|);
    part := Part(k + 1, start, lines, height, rows);
  }

  /** The outer loop: cut parts off the front until no line is left. */
  method Paginate(styled: seq<string>, heights: seq<nat>) returns (parts: seq<Part>)
    requires |heights| == |styled|
    ensures Flatten(parts) == styled
    ensures Paginated(styled, heights, parts)
  {
    parts := [];
    var current := 0;
    while current < |styled|
      invariant current <= |styled|
      invariant Flatten(parts) == styled[..current]
      invariant PartsInOrder(styled, heights, parts)
      decreases |styled| - current
    {
      var part := MakePart(styled, heights, |parts|, current);
      ExtendParts(styled, heights, parts, part);
      assert styled[..current + |part.lines|] == styled[..current] + part.lines;
      current := current + |part.lines|;
      parts := parts + [part];
    }
    assert styled[..current] == styled;
  }

  /** Every line drawn lies inside its part, below the lines drawn before it. */
  lemma RowsInsidePart(styled: seq<string>, heights: seq<nat>, k: nat, p: Part)
    requires PartOk(styled, heights, k, p)
    ensures forall i :: 0 <= i < |p.rows| ==>
      Padding <= p.rows[i] && p.rows[i] + heights[p.start + i] + LineSpacing + Padding <= p.height
    ensures forall i, j :: 0 <= i < j < |p.rows| ==>
      p.rows[i] + heights[p.start + i] + LineSpacing <= p.rows[j]
  {
    var end := p.start + |p.lines|;
    forall i | 0 <= i < |p.rows|
      ensures p.rows[i] + heights[p.start + i] + LineSpacing + Padding <= p.height
    {
      SpanGrows(heights, p.start, p.start + i + 1, end);
    }
    forall i, j | 0 <= i < j < |p.rows|
      ensures p.rows[i] + heights[p.start + i] + LineSpacing <= p.rows[j]
    {
      SpanGrows(heights, p.start, p.start + i + 1, p.start + j);
    }
  }

  /** The height limit bounds the top padding and the lines only: a part of
    * two or more lines is at most the limit plus the bottom padding. */
  lemma PartHeightBound(styled: seq<string>, heights: seq<nat>, k: nat, p: Part)
    requires PartOk(styled, heights, k, p) && |p.lines| >= 2
    ensures p.height <= MaxImageHeight + Padding
  {
  }

  /** Two lines whose top padding and heights fill the limit exactly make a
    * part taller than the limit, once the bottom padding is added. */
  lemma TwoLinePartExceedsLimit()
    ensures PartOk(["a", "b"], [300, 470], 0, Part(1, 0, ["a", "b"], 820, [20, 325]))
    ensures 820 > MaxImageHeight
  {
    assert Span([300, 470], 0, 1) == 305;
    assert Span([300, 470], 0, 2) == 780;
  }

  /** A single line taller than the limit still gets a part of its own. */
  lemma TallLinePartExceedsLimit()
    ensures PartOk(["a"], [1000], 0, Part(1, 0, ["a"], 1045, [20]))
    ensures 1045 > MaxImageHeight + Padding
  {
    assert Span([1000], 0, 1) == 1005;
  }

  /** Part `k` of parts in order, unfolded. */
  lemma PartAt(styled: seq<string>, heights: seq<nat>, parts: seq<Part>, k: nat)
    requires PartsInOrder(styled, heights, parts) && k < |parts|
    ensures parts[k].start == |Flatten(parts[..k])| && PartOk(styled, heights, k, parts[k])
  {
  }

  /** Two sequences of parts in order agree on their first n parts. */
  lemma {:induction false} PrefixesAgree(styled: seq<string>, heights: seq<nat>,
                                         p: seq<Part>, q: seq<Part>, n: nat)
    requires PartsInOrder(styled, heights, p) && PartsInOrder(styled, heights, q)
    requires n <= |p| && n <= |q|
    ensures p[..n] == q[..n]
  {
    if n > 0 {
      var k := n - 1;
      PrefixesAgree(styled, heights, p, q, k);
      PartAt(styled, heights, p, k);
      PartAt(styled, heights, q, k);
      PartDetermined(styled, heights, k, p[k], q[k]);
      PrefixGrows(p, q, k);
    }
  }

  lemma PrefixGrows<T>(p: seq<T>, q: seq<T>, k: nat)
    requires k < |p| && k < |q| && p[..k] == q[..k] && p[k] == q[k]
    ensures p[..k + 1] == q[..k + 1]
  {
    assert p[..k + 1] == p[..k] + [p[k]];
    assert q[..k + 1] == q[..k] + [q[k]];
  }

  /** Every part starts at a line that exists: parts are never empty. */
  lemma StartsBeforeEnd(styled: seq<string>, heights: seq<nat>, parts: seq<Part>, k: nat)
    requires PartsInOrder(styled, heights, parts) && k < |parts|
    ensures |Flatten(parts[..k])| < |styled|
  {
    PartAt(styled, heights, parts, k);
  }

  /** The layout is determined by the lines and their heights: any two
    * layouts meeting Paginated are the same, so Paginate's postcondition
    * pins down its result completely. */
  lemma PaginationUnique(styled: seq<string>, heights: seq<nat>, p: seq<Part>, q: seq<Part>)
    requires Paginated(styled, heights, p) && Paginated(styled, heights, q)
    ensures p == q
  {
    if |p| < |q| {
      PrefixesAgree(styled, heights, p, q, |p|);
      assert q[..|p|] == p;
      StartsBeforeEnd(styled, heights, q, |p|);
      assert false;
    } else if |q| < |p| {
      PrefixesAgree(styled, heights, p, q, |q|);
      assert p[..|q|] == q;
      StartsBeforeEnd(styled, heights, p, |q|);
      assert false;
    } else {
      PrefixesAgree(styled, heights, p, q, |p|);
      assert p[..|p|] == p && q[..|q|] == q;
    }
  }

  // ------------------------------------------------------------ whole script

  /** Styles the input lines, measures them, and lays them out in parts, all
    * as wide as the widest line plus padding on both sides. */
  method Screenshot(lines: seq<string>, measure: string -> TextSize)
    returns (styled: seq<string>, imageWidth: nat, heights: seq<nat>, parts: seq<Part>)
    ensures IsStyled(lines, styled)
    ensures |heights| == |styled|
    ensures forall i :: 0 <= i < |styled| ==> heights[i] == measure(styled[i]).height
    ensures forall i :: 0 <= i < |styled| ==> measure(styled[i]).width + 2 * Padding <= imageWidth
    ensures imageWidth == 2 * Padding ||
            exists i :: 0 <= i < |styled| && measure(styled[i]).width + 2 * Padding == imageWidth
    ensures Paginated(styled, heights, parts)
  {
    styled := StyleLines(lines);
    var maxWidth;
    maxWidth, heights := MeasureLines(styled, measure);
    imageWidth := maxWidth + Padding * 2;
    parts := Paginate(styled, heights);
  }
}

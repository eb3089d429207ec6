/** 2015 day 2: wrapping paper and ribbon for box-shaped presents
    (src/year_2015/day02.rs). Dimensions are natural numbers. */
module Year2015Day02 {
  /** `min`: the first of the three arguments that is at most the other two. */
  function Min(a: nat, b: nat, c: nat): (r: nat)
    ensures r == a || r == b || r == c
    ensures r <= a && r <= b && r <= c
  {
    if a <= b && a <= c then a else if b <= a && b <= c then b else c
  }

  /** The least of three does not depend on their order. */
  lemma {:induction false} MinSymmetric(a: nat, b: nat, c: nat)
    ensures Min(a, b, c) == Min(b, c, a) == Min(b, a, c)
  {
    var m := Min(a, b, c);
    assert m <= Min(b, c, a) && Min(b, c, a) <= m;
    assert m <= Min(b, a, c) && Min(b, a, c) <= m;
  }

  /** A line of input: blank, or a present `LxWxH`. */
  datatype Line = Blank | Present(l: nat, w: nat, h: nat)

  /** Paper for one present: its surface plus the area of its smallest side. */
  function Paper(l: nat, w: nat, h: nat): nat {
    2 * (l * w + w * h + h * l) + Min(l * w, w * h, h * l)
  }

  /** Ribbon for one present: its volume plus the smallest perimeter. */
  function Ribbon(l: nat, w: nat, h: nat): nat {
    l * w * h + 2 * Min(l + w, w + h, h + l)
  }

  /** Turning a present around needs the same paper. */
  lemma {:induction false} PaperOrientation(l: nat, w: nat, h: nat)
    ensures Paper(l, w, h) == Paper(w, h, l) == Paper(w, l, h)
  {
    var x, y, z := l * w, w * h, h * l;
    assert w * l == x && l * h == z && h * w == y;
    MinSymmetric(x, y, z);
    assert Paper(w, h, l) == 2 * (y + z + x) + Min(y, z, x);
    assert Paper(w, l, h) == 2 * (x + z + y) + Min(x, z, y);
    MinSymmetric(x, z, y);
  }

  /** Turning a present around needs the same ribbon. */
  lemma {:induction false} RibbonOrientation(l: nat, w: nat, h: nat)
    ensures Ribbon(l, w, h) == Ribbon(w, h, l) == Ribbon(w, l, h)
  {
    MinSymmetric(l + w, w + h, h + l);
    MinSymmetric(l + w, h + l, w + h);
    var v := l * w * h;
    assert w * h * l == v by {
      assert w * h * l == (w * h) * l == l * (w * h);
    }
    assert w * l * h == v by {
      assert w * l == l * w;
    }
  }

  function TotalPaper(lines: seq<Line>): nat {
    if lines == [] then 0
    else TotalPaper(lines[..|lines| - 1])
         + (match lines[|lines| - 1] case Blank => 0 case Present(l, w, h) => Paper(l, w, h))
  }

  function TotalRibbon(lines: seq<Line>): nat {
    if lines == [] then 0
    else TotalRibbon(lines[..|lines| - 1])
         + (match lines[|lines| - 1] case Blank => 0 case Present(l, w, h) => Ribbon(l, w, h))
  }

  /** The line loop of `main`: blank lines are skipped, every present adds its
      paper and ribbon. */
  method Totals(lines: seq<Line>) returns (paper: nat, ribbon: nat)
    ensures paper == TotalPaper(lines) && ribbon == TotalRibbon(lines)
  {
    paper, ribbon := 0, 0;
    for i := 0 to |lines|
      invariant paper == TotalPaper(lines[..i]) && ribbon == TotalRibbon(lines[..i])
    {
      assert lines[..i + 1][..i] == lines[..i];
      if lines[i].Blank? {
        continue;
      }
      var p := lines[i];
      var smallestSideArea := Min(p.l * p.w, p.w * p.h, p.h * p.l);
      var smallestSidePerim := 2 * Min(p.l + p.w, p.w + p.h, p.h + p.l);
      paper := paper + (2 * (p.l * p.w + p.w * p.h + p.h * p.l)) + smallestSideArea;
      var base: nat := p.l * p.w;
      var volume: nat := base * p.h;
      ribbon := ribbon + volume + smallestSidePerim;
    }
    assert lines[..|lines|] == lines;
  }

  /** The puzzle's own examples: 2x3x4 needs 58 paper and 34 ribbon, 1x1x10
      needs 43 and 14. */
  lemma {:induction false} Examples()
    ensures Paper(2, 3, 4) == 58 && Ribbon(2, 3, 4) == 34
    ensures Paper(1, 1, 10) == 43 && Ribbon(1, 1, 10) == 14
  {
    assert Min(6, 12, 8) == 6 && Min(5, 7, 6) == 5;
    assert Min(1, 10, 10) == 1 && Min(2, 11, 11) == 2;
  }
}

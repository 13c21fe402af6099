/**
 * The resize planner: from the resize flag and the two EXIF size tags it
 * decides whether the file is skipped, converted at its own size ("100%"),
 * or scaled so that its longer side becomes 2126 pixels.
 */
module Resize {
  import opened Wrappers
  import Decimal
  import opened Exif

  const DesiredLonger: nat := 2126
  const DesiredShorter: nat := 1535

  /** The tags a resize needs, in the order the script checks (and reports) them. */
  const ResizeTagsNeeded: seq<string> := [WidthTag, LengthTag]

  /** The geometry handed to the converter's -resize option. */
  datatype Spec = Percent100 | Dims(width: nat, height: nat)

  /** What the planner decides for one file. */
  datatype Decision = Skip(missing: seq<string>) | Use(spec: Spec)

  /** The geometry as the converter receives it: "100%" or "WxH". */
  function Render(s: Spec): string {
    match s
    case Percent100 => "100%"
    case Dims(w, h) => Decimal.Show(w) + "x" + Decimal.Show(h)
  }

  /** Index of the first 'x' in s, or |s| when there is none. */
  function IndexOfX(s: string): (k: nat)
    ensures k <= |s|
    ensures k < |s| ==> s[k] == 'x'
    ensures forall i :: 0 <= i < k ==> s[i] != 'x'
  {
    if s == [] then 0 else if s[0] == 'x' then 0 else 1 + IndexOfX(s[1..])
  }

  /** Reads a geometry string back: "100%", or two digit strings around an 'x'. */
  function Parse(s: string): Option<Spec> {
    var k := IndexOfX(s);
    if k == |s| then (if s == "100%" then Some(Percent100) else None)
    else
        var a, b := s[..k], s[k + 1..];
        if a != [] && b != [] && Decimal.AllDigits(a) && Decimal.AllDigits(b)
        then Some(Dims(Decimal.Value(a), Decimal.Value(b)))
        else None
  }

  /** The rendered geometry determines the spec: the converter reads back exactly what was planned. */
  lemma ParseRender(s: Spec)
    ensures Parse(Render(s)) == Some(s)
  {
    if s.Dims? {
      var a, b := Decimal.Show(s.width), Decimal.Show(s.height);
      var r := a + "x" + b;
      assert r[|a|] == 'x';
      assert forall i :: 0 <= i < |a| ==> r[i] == a[i] && r[i] != 'x';
      assert IndexOfX(r) == |a|;
      assert r[..|a|] == a && r[|a| + 1..] == b;
      Decimal.ValueOfShow(s.width);
      Decimal.ValueOfShow(s.height);
    }
  }

  /** The script downscales only images that exceed both bounds in one of the two orientations. */
  predicate Triggered(w: nat, h: nat) {
    (w > DesiredLonger && h > DesiredShorter) || (w > DesiredShorter && h > DesiredLonger)
  }

  /** q * d <= n < (q + 1) * d for q == n / d: the truncated quotient is within one unit of the exact one. */
  lemma FloorBounds(n: nat, d: nat)
    requires d > 0
    ensures (n / d) * d <= n < (n / d + 1) * d
  {
  }

  /**
   * Scaling a by DesiredLonger / b, for b above DesiredLonger and a <= b: the
   * truncated result is within one unit of the exact value, does not enlarge
   * a, and reaches DesiredLonger exactly when a == b.
   */
  lemma ScaledSide(a: nat, b: nat)
    requires b > DesiredLonger && a <= b
    ensures var q := (a * DesiredLonger) / b;
      q * b <= a * DesiredLonger < (q + 1) * b && q <= a && q <= DesiredLonger &&
      (q == DesiredLonger <==> a == b)
  {
    var L := DesiredLonger;
    var q := (a * L) / b;
    FloorBounds(a * L, b);
    if q > a {
      MulLe(a + 1, q, b);
      MulLt(L, b, a + 1);
      assert false;
    }
    if a < b && q >= L {
      MulLe(L, q, b);
      MulLt(a, b, L);
      assert false;
    }
    if a == b {
      DivExact(L, a);
    }
  }

  lemma MulLe(x: nat, y: nat, z: nat)
    requires x <= y
    ensures x * z <= y * z
  {
  }

  lemma MulLt(x: nat, y: nat, z: nat)
    requires x < y && z > 0
    ensures x * z < y * z
  {
  }

  lemma DivExact(q: nat, d: nat)
    requires d > 0
    ensures (d * q) / d == q
  {
    FloorBounds(d * q, d);
    var r := (d * q) / d;
    if r < q {
      MulLe(r + 1, q, d);
      assert false;
    } else if r > q {
      MulLe(q + 1, r, d);
      assert false;
    }
  }

  /**
   * The scaled geometry: the longer side (the width when w > h, else the
   * height) becomes exactly DesiredLonger, the other is truncated.
   */
  function Target(w: nat, h: nat): (r: Spec)
    requires Triggered(w, h)
    ensures r.Dims?
    ensures r.width <= w && r.height <= h
    ensures w > h ==> r.width == DesiredLonger && r.height * w <= h * DesiredLonger < (r.height + 1) * w
    ensures w <= h ==> r.height == DesiredLonger && r.width * h <= w * DesiredLonger < (r.width + 1) * h
    ensures (r.width > r.height) == (w > h) && (r.width == r.height) == (w == h)
  {
    if w > h then
      var q := (h * DesiredLonger) / w;
      ScaledSide(h, w);
      assert q < DesiredLonger;
      Dims(DesiredLonger, q)
    else
      var q := (w * DesiredLonger) / h;
      ScaledSide(w, h);
      assert q < DesiredLonger <==> w != h;
      Dims(q, DesiredLonger)
  }

  /** The required tags missing from `tags`, in the order of `names`. */
  function MissingIn(names: seq<string>, tags: Tags): seq<string> {
    if names == [] then []
    else
      var last := names[|names| - 1];
      MissingIn(names[..|names| - 1], tags) + (if Has(tags, last) then [] else [last])
  }

  /**
   * The loop over RESIZE_TAGS_NEEDED: every missing tag is reported, and the
   * file is abandoned when any is missing.
   */
  method CheckResizeTags(tags: Tags) returns (missing: seq<string>, stopIteration: bool)
    ensures missing == MissingIn(ResizeTagsNeeded, tags)
    ensures missing == (if tags.width.None? then [WidthTag] else []) + (if tags.length.None? then [LengthTag] else [])
    ensures stopIteration <==> tags.width.None? || tags.length.None?
  {
    missing, stopIteration := [], false;
    for i := 0 to |ResizeTagsNeeded|
      invariant missing == MissingIn(ResizeTagsNeeded[..i], tags)
      invariant stopIteration <==> missing != []
    {
      var t := ResizeTagsNeeded[i];
      assert ResizeTagsNeeded[..i + 1][..i] == ResizeTagsNeeded[..i];
      if !Has(tags, t) {
        missing := missing + [t];
        stopIteration := true;
      }
    }
    assert ResizeTagsNeeded[..2] == ResizeTagsNeeded;
    MissingResizeTags(tags);
  }

  /** The two size tags are reported in order, each exactly when it is absent. */
  lemma MissingResizeTags(tags: Tags)
    ensures MissingIn(ResizeTagsNeeded, tags)
         == (if tags.width.None? then [WidthTag] else []) + (if tags.length.None? then [LengthTag] else [])
  {
    var names := ResizeTagsNeeded;
    assert names[..1] == [WidthTag] && names[1] == LengthTag;
    assert [WidthTag][..0] == [];
    assert Has(tags, WidthTag) == tags.width.Some?;
    assert LengthTag != WidthTag by { assert LengthTag[14] != WidthTag[14]; }
    assert Has(tags, LengthTag) == tags.length.Some?;
    assert MissingIn([WidthTag], tags) == (if tags.width.None? then [WidthTag] else []);
  }

  /** The whole planner for one file. */
  function Plan(resize: bool, tags: Tags): (d: Decision)
    ensures !resize ==> d == Use(Percent100)
    ensures resize ==> (d.Skip? <==> tags.width.None? || tags.length.None?)
    ensures d.Skip? ==> d.missing != [] && d.missing == MissingIn(ResizeTagsNeeded, tags)
    ensures resize && d.Use? ==>
              (d.spec.Dims? <==> Triggered(tags.width.value, tags.length.value)) &&
              (d.spec.Dims? ==> d.spec == Target(tags.width.value, tags.length.value))
  {
    if !resize then Use(Percent100)
    else if tags.width.None? || tags.length.None? then
      MissingResizeTags(tags);
      Skip(MissingIn(ResizeTagsNeeded, tags))
    else
      var w, h := tags.width.value, tags.length.value;
      if Triggered(w, h) then Use(Target(w, h)) else Use(Percent100)
  }

  /** Lines 49-68 as the script runs them: the tag loop first, then the trigger rule and the scaling. */
  method PlanResize(resize: bool, tags: Tags) returns (d: Decision)
    ensures d == Plan(resize, tags)
  {
    var resizeSize := Percent100;
    if resize {
      var missing, stopIteration := CheckResizeTags(tags);
      if stopIteration {
        return Skip(missing);
      }
      var w, h := tags.width.value, tags.length.value;
      if Triggered(w, h) {
        resizeSize := Target(w, h);
      }
    }
    d := Use(resizeSize);
  }

  /** With resizing off the size tags are never consulted: any two tag sets get the same decision. */
  lemma DisabledIgnoresTags(t1: Tags, t2: Tags)
    ensures Plan(false, t1) == Plan(false, t2) == Use(Percent100)
  {
  }

  /** A 4000x3000 image becomes 2126x1594 (1594.5 truncated). */
  lemma LandscapeExample()
    ensures Plan(true, Tags(Some(4000), Some(3000), None)) == Use(Dims(2126, 1594))
    ensures Render(Dims(2126, 1594)) == "2126x1594"
  {
    assert Decimal.Show(2126) == "2126";
    assert Decimal.Show(1594) == "1594";
  }

  /** A 1600x1200 image exceeds neither bound pair and is passed through. */
  lemma SmallExample()
    ensures Plan(true, Tags(Some(1600), Some(1200), None)) == Use(Percent100)
  {
  }
}

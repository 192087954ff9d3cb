/**
 * The aspect-ratio resolver of App.tsx (`getEffectiveAspectRatio`): a fixed
 * selection passes through, a custom width x height is mapped to the nearest
 * of five supported ratios by a left-to-right reduction that keeps the current
 * best unless a later entry is strictly closer.
 */
module AspectRatio {
  import opened Types

  /** One entry of the `supported` array: an id and its ratio constant. */
  datatype Entry = Entry(id: RatioToken, val: real)

  /** The `supported` array, in its source order. */
  const Supported: seq<Entry> := [
    Entry(R1x1, 1.0),
    Entry(R3x4, 0.75),
    Entry(R4x3, 1.3333),
    Entry(R9x16, 0.5625),
    Entry(R16x9, 1.7778)
  ]

  function Abs(x: real): (r: real)
    ensures r >= 0.0 && (r == x || r == -x)
  {
    if x < 0.0 then -x else x
  }

  /** `Math.abs(val - ratio)`. */
  function Dist(val: real, ratio: real): real
  {
    Abs(val - ratio)
  }

  /** Position of a token in `Supported`. */
  function Rank(t: RatioToken): (k: nat)
    ensures k < |Supported| && Supported[k].id == t
  {
    match t
    case R1x1 => 0
    case R3x4 => 1
    case R4x3 => 2
    case R9x16 => 3
    case R16x9 => 4
  }

  /** The ratio constant of a token, as listed in `Supported`. */
  function Val(t: RatioToken): real
  {
    Supported[Rank(t)].val
  }

  /** The token a fixed selection stands for. */
  function Selected(a: AspectRatioType): RatioToken
    requires a != Custom
  {
    match a
    case Ratio1x1 => R1x1
    case Ratio16x9 => R16x9
    case Ratio9x16 => R9x16
  }

  /**
   * `reduce` without a seed: `prev` is the accumulator, `rest` the entries
   * still to visit; an entry replaces the accumulator only when strictly closer.
   */
  function ReduceClosest(prev: Entry, rest: seq<Entry>, ratio: real): Entry
    decreases |rest|
  {
    if rest == [] then prev
    else
      var next := if Dist(rest[0].val, ratio) < Dist(prev.val, ratio) then rest[0] else prev;
      ReduceClosest(next, rest[1..], ratio)
  }

  /**
   * Index k of `xs` holds a nearest entry to `ratio`, and every entry before
   * it is strictly farther: the first nearest entry.
   */
  ghost predicate IsFirstNearest(xs: seq<Entry>, ratio: real, k: int)
  {
    0 <= k < |xs| &&
    (forall j :: 0 <= j < |xs| ==> Dist(xs[k].val, ratio) <= Dist(xs[j].val, ratio)) &&
    (forall j :: 0 <= j < k ==> Dist(xs[k].val, ratio) < Dist(xs[j].val, ratio))
  }

  /** The reduction returns the first nearest entry of the list it folds over. */
  lemma {:induction false} ReduceClosestIsFirstNearest(prev: Entry, rest: seq<Entry>, ratio: real)
    ensures exists k :: IsFirstNearest([prev] + rest, ratio, k) && ReduceClosest(prev, rest, ratio) == ([prev] + rest)[k]
    decreases |rest|
  {
    var xs := [prev] + rest;
    if rest == [] {
      assert IsFirstNearest(xs, ratio, 0);
    } else {
      var next := if Dist(rest[0].val, ratio) < Dist(prev.val, ratio) then rest[0] else prev;
      ReduceClosestIsFirstNearest(next, rest[1..], ratio);
      var ys := [next] + rest[1..];
      var k' :| IsFirstNearest(ys, ratio, k') && ReduceClosest(next, rest[1..], ratio) == ys[k'];
      assert forall j :: 1 <= j < |ys| ==> ys[j] == xs[j + 1];
      var k := if k' > 0 then k' + 1 else if next == prev then 0 else 1;
      assert xs[k] == ys[k'];
      forall j | 0 <= j < |xs|
        ensures Dist(xs[k].val, ratio) <= Dist(xs[j].val, ratio)
      {
        if j >= 2 {
          assert xs[j] == ys[j - 1];
        }
      }
      forall j | 0 <= j < k
        ensures Dist(xs[k].val, ratio) < Dist(xs[j].val, ratio)
      {
        if j >= 2 {
          assert xs[j] == ys[j - 1];
        } else if k' > 0 {
          assert Dist(ys[k'].val, ratio) < Dist(ys[0].val, ratio);
        }
      }
      assert IsFirstNearest(xs, ratio, k);
    }
  }

  /** `getEffectiveAspectRatio` over the selection and the custom dimensions. */
  function EffectiveAspectRatio(selection: AspectRatioType, width: int, height: int): (r: RatioToken)
    ensures selection != Custom ==> r == Selected(selection)
    ensures selection == Custom && (width <= 0 || height <= 0) ==> r == R1x1
  {
    if selection != Custom then Selected(selection)
    else if width <= 0 || height <= 0 then R1x1
    else
      var ratio := width as real / height as real;
      ReduceClosest(Supported[0], Supported[1..], ratio).id
  }

  /** The index of an entry of `Supported` is the rank of its id. */
  lemma RankOfSupported(k: int)
    requires 0 <= k < |Supported|
    ensures Rank(Supported[k].id) == k
  {
  }

  /**
   * Over any ratio, the reduction over `Supported` yields a token that is
   * nearest, and strictly nearer than every token listed before it.
   */
  lemma ReduceSupportedIsFirstNearest(ratio: real)
    ensures var r := ReduceClosest(Supported[0], Supported[1..], ratio).id;
            (forall t :: Dist(Val(r), ratio) <= Dist(Val(t), ratio)) &&
            (forall t :: Rank(t) < Rank(r) ==> Dist(Val(r), ratio) < Dist(Val(t), ratio))
  {
    ReduceClosestIsFirstNearest(Supported[0], Supported[1..], ratio);
    assert [Supported[0]] + Supported[1..] == Supported;
    var k :| IsFirstNearest(Supported, ratio, k) && ReduceClosest(Supported[0], Supported[1..], ratio) == Supported[k];
    var r := Supported[k].id;
    RankOfSupported(k);
    forall t ensures Dist(Val(r), ratio) <= Dist(Val(t), ratio) {
      assert Supported[k].val == Val(r);
    }
  }

  /**
   * For positive custom dimensions the returned token is a nearest supported
   * ratio, and every token listed before it is strictly farther (ties go to
   * the earliest entry).
   */
  lemma CustomIsFirstNearest(width: int, height: int)
    requires width > 0 && height > 0
    ensures var r := EffectiveAspectRatio(Custom, width, height);
            var ratio := width as real / height as real;
            (forall t :: Dist(Val(r), ratio) <= Dist(Val(t), ratio)) &&
            (forall t :: Rank(t) < Rank(r) ==> Dist(Val(r), ratio) < Dist(Val(t), ratio))
  {
    ReduceSupportedIsFirstNearest(width as real / height as real);
  }

  /**
   * Conversely, the two properties of CustomIsFirstNearest single out the
   * returned token: no other token has both.
   */
  lemma FirstNearestIsUnique(width: int, height: int, t: RatioToken)
    requires width > 0 && height > 0
    requires var ratio := width as real / height as real;
             (forall u :: Dist(Val(t), ratio) <= Dist(Val(u), ratio)) &&
             (forall u :: Rank(u) < Rank(t) ==> Dist(Val(t), ratio) < Dist(Val(u), ratio))
    ensures t == EffectiveAspectRatio(Custom, width, height)
  {
    var r := EffectiveAspectRatio(Custom, width, height);
    CustomIsFirstNearest(width, height);
    assert Rank(t) == Rank(r);
  }

  /**
   * A token is the resolution of positive custom dimensions once it is checked,
   * token by token, to be nearest and strictly nearer than every earlier one.
   */
  lemma ResolvesTo(width: int, height: int, t: RatioToken)
    requires width > 0 && height > 0
    requires var ratio := width as real / height as real;
             Dist(Val(t), ratio) <= Dist(1.0, ratio) && Dist(Val(t), ratio) <= Dist(0.75, ratio) &&
             Dist(Val(t), ratio) <= Dist(1.3333, ratio) && Dist(Val(t), ratio) <= Dist(0.5625, ratio) &&
             Dist(Val(t), ratio) <= Dist(1.7778, ratio)
    requires var ratio := width as real / height as real;
             forall u :: Rank(u) < Rank(t) ==> Dist(Val(t), ratio) < Dist(Val(u), ratio)
    ensures EffectiveAspectRatio(Custom, width, height) == t
  {
    var ratio := width as real / height as real;
    forall u ensures Dist(Val(t), ratio) <= Dist(Val(u), ratio) {
      match u
      case R1x1 =>
      case R3x4 =>
      case R4x3 =>
      case R9x16 =>
      case R16x9 =>
    }
    FirstNearestIsUnique(width, height, t);
  }

  /** 1024 x 1024 is exactly 1:1. */
  lemma Square1024()
    ensures EffectiveAspectRatio(Custom, 1024, 1024) == R1x1
  {
    ResolvesTo(1024, 1024, R1x1);
  }

  /** 1920 x 1080 is nearest to 16:9 (1.7778). */
  lemma FullHdLandscape()
    ensures EffectiveAspectRatio(Custom, 1920, 1080) == R16x9
  {
    forall u | Rank(u) < Rank(R16x9)
      ensures Dist(Val(R16x9), 1920.0 / 1080.0) < Dist(Val(u), 1920.0 / 1080.0)
    {
      match u
      case R1x1 =>
      case R3x4 =>
      case R4x3 =>
      case R9x16 =>
    }
    ResolvesTo(1920, 1080, R16x9);
  }

  /** 1080 x 1920 is exactly 9:16. */
  lemma FullHdPortrait()
    ensures EffectiveAspectRatio(Custom, 1080, 1920) == R9x16
  {
    forall u | Rank(u) < Rank(R9x16)
      ensures Dist(Val(R9x16), 1080.0 / 1920.0) < Dist(Val(u), 1080.0 / 1920.0)
    {
      match u
      case R1x1 =>
      case R3x4 =>
      case R4x3 =>
    }
    ResolvesTo(1080, 1920, R9x16);
  }

  /** 768 x 1024 is exactly 3:4. */
  lemma Portrait768()
    ensures EffectiveAspectRatio(Custom, 768, 1024) == R3x4
  {
    forall u | Rank(u) < Rank(R3x4)
      ensures Dist(Val(R3x4), 768.0 / 1024.0) < Dist(Val(u), 768.0 / 1024.0)
    {
    }
    ResolvesTo(768, 1024, R3x4);
  }

  /** 7 x 8 = 0.875 is equally far from 1.0 and 0.75; the earlier 1:1 wins. */
  lemma TieGoesToEarliest()
    ensures Dist(1.0, 7.0 / 8.0) == Dist(0.75, 7.0 / 8.0)
    ensures EffectiveAspectRatio(Custom, 7, 8) == R1x1
  {
    ResolvesTo(7, 8, R1x1);
  }
}

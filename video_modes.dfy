/** Choosing a monitor video mode for exclusive fullscreen (`get_fitting_videomode`,
    `get_best_videomode` and their helper `abs_diff`). Both source copies hold the same
    code; one reads `refresh_rate`, the other `refresh_rate_millihertz`, which only
    changes the unit of `VideoMode.refresh`.

    The source sorts the monitor's modes with a comparator and returns the first. `sort_by`
    is a stable sort, so the first element is the EARLIEST mode in the monitor's order
    that no other mode precedes. The model computes that element in one pass. */
module VideoModes {
  import opened WinitTypes

  /** `abs_diff(a, b)` on `u32`: the distance between `a` and `b`, which always fits in a
      `u32` (the subtraction it performs never underflows). */
  function AbsDiff(a: U32, b: U32): (r: U32)
    ensures a <= b ==> a + r == b
    ensures b <= a ==> b + r == a
  {
    if a > b then a - b else b - a
  }

  lemma AbsDiffSymmetric(a: U32, b: U32)
    ensures AbsDiff(a, b) == AbsDiff(b, a)
    ensures AbsDiff(a, b) == 0 <==> a == b
  {
  }

  /** Rust's `std::cmp::Ordering`. */
  datatype Ordering = Less | Equal | Greater

  /** `Ord::cmp` on integers. */
  function Cmp(x: int, y: int): Ordering
  {
    if x < y then Less else if x == y then Equal else Greater
  }

  /** The comparator `get_fitting_videomode` passes to `sort_by`: closer width first, then
      closer height, then the higher refresh rate. */
  function CompareFitting(a: VideoMode, b: VideoMode, width: U32, height: U32): (o: Ordering)
    ensures o == Equal <==> (AbsDiff(a.width, width) == AbsDiff(b.width, width)
                             && AbsDiff(a.height, height) == AbsDiff(b.height, height)
                             && a.refresh == b.refresh)
    ensures AbsDiff(a.width, width) < AbsDiff(b.width, width) ==> o == Less
  {
    match Cmp(AbsDiff(a.width, width), AbsDiff(b.width, width))
    case Equal =>
      (match Cmp(AbsDiff(a.height, height), AbsDiff(b.height, height))
       case Equal => Cmp(b.refresh, a.refresh)
       case other => other)
    case other => other
  }

  /** The comparator `get_best_videomode` passes to `sort_by`: wider first, then taller,
      then the higher refresh rate. */
  function CompareBest(a: VideoMode, b: VideoMode): (o: Ordering)
    ensures o == Equal <==> (a.width == b.width && a.height == b.height && a.refresh == b.refresh)
    ensures a.width > b.width ==> o == Less
  {
    match Cmp(b.width, a.width)
    case Equal =>
      (match Cmp(b.height, a.height)
       case Equal => Cmp(b.refresh, a.refresh)
       case other => other)
    case other => other
  }

  /** A sort key: keys are ordered lexicographically and the least key sorts first. */
  datatype Key = Key(first: int, second: int, third: int)

  predicate KeyLess(x: Key, y: Key)
  {
    x.first < y.first
    || (x.first == y.first && x.second < y.second)
    || (x.first == y.first && x.second == y.second && x.third < y.third)
  }

  /** The independent key of each comparator: the distances to the requested size, and
      the refresh rate negated so that a higher rate is a smaller key. */
  function FittingKey(m: VideoMode, width: U32, height: U32): Key
  {
    Key(AbsDiff(m.width, width), AbsDiff(m.height, height), -(m.refresh as int))
  }

  function BestKey(m: VideoMode): Key
  {
    Key(-(m.width as int), -(m.height as int), -(m.refresh as int))
  }

  /** The comparator orders modes exactly as their keys do. */
  lemma CompareFittingIsKeyOrder(a: VideoMode, b: VideoMode, width: U32, height: U32)
    ensures CompareFitting(a, b, width, height) == Less
            <==> KeyLess(FittingKey(a, width, height), FittingKey(b, width, height))
    ensures CompareFitting(a, b, width, height) == Greater
            <==> KeyLess(FittingKey(b, width, height), FittingKey(a, width, height))
  {
  }

  lemma CompareBestIsKeyOrder(a: VideoMode, b: VideoMode)
    ensures CompareBest(a, b) == Less <==> KeyLess(BestKey(a), BestKey(b))
    ensures CompareBest(a, b) == Greater <==> KeyLess(BestKey(b), BestKey(a))
  {
  }

  /** `k` indexes the element a stable sort by `keys` puts first: no key is less than
      `keys[k]`, and every earlier key is strictly greater. */
  ghost predicate IsFirstLeast(keys: seq<Key>, k: int)
  {
    && 0 <= k < |keys|
    && (forall j :: 0 <= j < |keys| ==> !KeyLess(keys[j], keys[k]))
    && (forall j :: 0 <= j < k ==> KeyLess(keys[k], keys[j]))
  }

  /** The same position as a function, extending the prefix one key at a time. */
  function FirstLeastIndex(keys: seq<Key>): (k: nat)
    requires |keys| > 0
    ensures IsFirstLeast(keys, k)
  {
    if |keys| == 1 then 0
    else
      var k' := FirstLeastIndex(keys[..|keys| - 1]);
      if KeyLess(keys[|keys| - 1], keys[k']) then |keys| - 1 else k'
  }

  /** The position of the first element of a stable sort of `keys`, found in one pass. */
  method FirstLeast(keys: seq<Key>) returns (k: nat)
    requires |keys| > 0
    ensures IsFirstLeast(keys, k)
    ensures k == FirstLeastIndex(keys)
  {
    k := 0;
    var i := 1;
    while i < |keys|
      invariant 0 <= k < i <= |keys|
      invariant forall j :: 0 <= j < i ==> !KeyLess(keys[j], keys[k])
      invariant forall j :: 0 <= j < k ==> KeyLess(keys[k], keys[j])
    {
      if KeyLess(keys[i], keys[k]) {
        k := i;
      }
      i := i + 1;
    }
    FirstLeastUnique(keys, k, FirstLeastIndex(keys));
  }

  /** Only one position can be first: a stable sort's first element is determined. */
  lemma FirstLeastUnique(keys: seq<Key>, k1: int, k2: int)
    requires IsFirstLeast(keys, k1) && IsFirstLeast(keys, k2)
    ensures k1 == k2
  {
    var a, b := keys[k1], keys[k2];
    assert !KeyLess(a, b) && !KeyLess(b, a);
  }

  function FittingKeys(modes: seq<VideoMode>, width: U32, height: U32): (keys: seq<Key>)
    ensures |keys| == |modes|
    ensures forall i :: 0 <= i < |modes| ==> keys[i] == FittingKey(modes[i], width, height)
  {
    seq(|modes|, i requires 0 <= i < |modes| => FittingKey(modes[i], width, height))
  }

  function BestKeys(modes: seq<VideoMode>): (keys: seq<Key>)
    ensures |keys| == |modes|
    ensures forall i :: 0 <= i < |modes| ==> keys[i] == BestKey(modes[i])
  {
    seq(|modes|, i requires 0 <= i < |modes| => BestKey(modes[i]))
  }

  /** The mode `get_fitting_videomode` returns, as a function: a member of the list that
      no mode compares before, every earlier mode comparing after it. */
  function FittingVideoMode(modes: seq<VideoMode>, width: U32, height: U32): (m: VideoMode)
    requires |modes| > 0
    ensures m in modes
    ensures forall x :: x in modes ==> CompareFitting(x, m, width, height) != Less
    ensures exists k :: 0 <= k < |modes| && modes[k] == m
              && forall j :: 0 <= j < k ==> CompareFitting(modes[j], m, width, height) == Greater
  {
    var k := FirstLeastIndex(FittingKeys(modes, width, height));
    FittingFirst(modes, width, height, k);
    modes[k]
  }

  /** The first position of the fitting keys is first under the fitting comparator. */
  lemma FittingFirst(modes: seq<VideoMode>, width: U32, height: U32, k: int)
    requires IsFirstLeast(FittingKeys(modes, width, height), k)
    ensures 0 <= k < |modes|
    ensures forall x :: x in modes ==> CompareFitting(x, modes[k], width, height) != Less
    ensures forall j :: 0 <= j < k ==> CompareFitting(modes[j], modes[k], width, height) == Greater
  {
    var keys := FittingKeys(modes, width, height);
    forall x | x in modes
      ensures CompareFitting(x, modes[k], width, height) != Less
    {
      var j :| 0 <= j < |modes| && modes[j] == x;
      assert keys[j] == FittingKey(x, width, height);
      CompareFittingIsKeyOrder(x, modes[k], width, height);
    }
    forall j | 0 <= j < k
      ensures CompareFitting(modes[j], modes[k], width, height) == Greater
    {
      assert keys[j] == FittingKey(modes[j], width, height);
      CompareFittingIsKeyOrder(modes[j], modes[k], width, height);
    }
  }

  /** The mode `get_best_videomode` returns, as a function: a member of the list that no
      mode compares before, every earlier mode comparing after it. */
  function BestVideoMode(modes: seq<VideoMode>): (m: VideoMode)
    requires |modes| > 0
    ensures m in modes
    ensures forall x :: x in modes ==> CompareBest(x, m) != Less
    ensures exists k :: 0 <= k < |modes| && modes[k] == m
              && forall j :: 0 <= j < k ==> CompareBest(modes[j], m) == Greater
  {
    var k := FirstLeastIndex(BestKeys(modes));
    BestFirst(modes, k);
    modes[k]
  }

  /** The first position of the best-mode keys is first under the best-mode comparator. */
  lemma BestFirst(modes: seq<VideoMode>, k: int)
    requires IsFirstLeast(BestKeys(modes), k)
    ensures 0 <= k < |modes|
    ensures forall x :: x in modes ==> CompareBest(x, modes[k]) != Less
    ensures forall j :: 0 <= j < k ==> CompareBest(modes[j], modes[k]) == Greater
  {
    var keys := BestKeys(modes);
    forall x | x in modes
      ensures CompareBest(x, modes[k]) != Less
    {
      var j :| 0 <= j < |modes| && modes[j] == x;
      assert keys[j] == BestKey(x);
      CompareBestIsKeyOrder(x, modes[k]);
    }
    forall j | 0 <= j < k
      ensures CompareBest(modes[j], modes[k]) == Greater
    {
      assert keys[j] == BestKey(modes[j]);
      CompareBestIsKeyOrder(modes[j], modes[k]);
    }
  }

  /** `get_fitting_videomode(monitor, width, height)`. The source unwraps the first element,
      so an empty list panics: callers must supply at least one mode. The result is one of
      the modes, no mode sorts before it, and every earlier mode sorts after it. */
  method GetFittingVideoMode(modes: seq<VideoMode>, width: U32, height: U32)
    returns (m: VideoMode)
    requires |modes| > 0
    ensures m == FittingVideoMode(modes, width, height)
    ensures m in modes
    ensures forall x :: x in modes ==> CompareFitting(x, m, width, height) != Less
    ensures exists k :: 0 <= k < |modes| && modes[k] == m
              && forall j :: 0 <= j < k ==> CompareFitting(modes[j], m, width, height) == Greater
  {
    var keys := FittingKeys(modes, width, height);
    var k := FirstLeast(keys);
    m := modes[k];
  }

  /** `get_best_videomode(monitor)`: the widest, then tallest, then fastest mode, the
      earliest one among equals. An empty list panics in the source. */
  method GetBestVideoMode(modes: seq<VideoMode>) returns (m: VideoMode)
    requires |modes| > 0
    ensures m == BestVideoMode(modes)
    ensures m in modes
    ensures forall x :: x in modes ==> CompareBest(x, m) != Less
    ensures exists k :: 0 <= k < |modes| && modes[k] == m
              && forall j :: 0 <= j < k ==> CompareBest(modes[j], m) == Greater
  {
    var keys := BestKeys(modes);
    var k := FirstLeast(keys);
    m := modes[k];
  }

  /** What the selection means in terms of the sizes: no mode is strictly closer in width;
      none equally close in width is closer in height; none equally close in both has a
      higher refresh rate. */
  lemma FittingIsClosest(modes: seq<VideoMode>, width: U32, height: U32, m: VideoMode)
    requires m in modes
    requires forall x :: x in modes ==> CompareFitting(x, m, width, height) != Less
    ensures forall x :: x in modes ==> AbsDiff(m.width, width) <= AbsDiff(x.width, width)
    ensures forall x :: x in modes && AbsDiff(x.width, width) == AbsDiff(m.width, width)
              ==> AbsDiff(m.height, height) <= AbsDiff(x.height, height)
    ensures forall x :: (x in modes && AbsDiff(x.width, width) == AbsDiff(m.width, width)
              && AbsDiff(x.height, height) == AbsDiff(m.height, height)) ==> x.refresh <= m.refresh
  {
    forall x | x in modes
      ensures AbsDiff(m.width, width) <= AbsDiff(x.width, width)
      ensures AbsDiff(x.width, width) == AbsDiff(m.width, width)
              ==> AbsDiff(m.height, height) <= AbsDiff(x.height, height)
      ensures (AbsDiff(x.width, width) == AbsDiff(m.width, width)
              && AbsDiff(x.height, height) == AbsDiff(m.height, height)) ==> x.refresh <= m.refresh
    {
      CompareFittingIsKeyOrder(x, m, width, height);
    }
  }

  /** The best mode is the widest; among the widest the tallest; among those the fastest. */
  lemma BestIsLargest(modes: seq<VideoMode>, m: VideoMode)
    requires m in modes
    requires forall x :: x in modes ==> CompareBest(x, m) != Less
    ensures forall x :: x in modes ==> x.width <= m.width
    ensures forall x :: x in modes && x.width == m.width ==> x.height <= m.height
    ensures forall x :: x in modes && x.width == m.width && x.height == m.height
              ==> x.refresh <= m.refresh
  {
    forall x | x in modes
      ensures x.width <= m.width
      ensures x.width == m.width ==> x.height <= m.height
      ensures x.width == m.width && x.height == m.height ==> x.refresh <= m.refresh
    {
      CompareBestIsKeyOrder(x, m);
    }
  }

  /** The function `FittingVideoMode` meets the premise of `FittingIsClosest`: the mode
      chosen for a sized fullscreen is the closest in width, then height, then the fastest. */
  lemma FittingVideoModeIsClosest(modes: seq<VideoMode>, width: U32, height: U32)
    requires |modes| > 0
    ensures var m := FittingVideoMode(modes, width, height);
            && (forall x :: x in modes ==> AbsDiff(m.width, width) <= AbsDiff(x.width, width))
            && (forall x :: x in modes && AbsDiff(x.width, width) == AbsDiff(m.width, width)
                  ==> AbsDiff(m.height, height) <= AbsDiff(x.height, height))
            && (forall x :: (x in modes && AbsDiff(x.width, width) == AbsDiff(m.width, width)
                  && AbsDiff(x.height, height) == AbsDiff(m.height, height)) ==> x.refresh <= m.refresh)
  {
    FittingIsClosest(modes, width, height, FittingVideoMode(modes, width, height));
  }

  /** The function `BestVideoMode` meets the premise of `BestIsLargest`: the mode chosen for
      exclusive fullscreen is the widest, then the tallest, then the fastest. */
  lemma BestVideoModeIsLargest(modes: seq<VideoMode>)
    requires |modes| > 0
    ensures var m := BestVideoMode(modes);
            && (forall x :: x in modes ==> x.width <= m.width)
            && (forall x :: x in modes && x.width == m.width ==> x.height <= m.height)
            && (forall x :: x in modes && x.width == m.width && x.height == m.height
                  ==> x.refresh <= m.refresh)
  {
    BestIsLargest(modes, BestVideoMode(modes));
  }
}

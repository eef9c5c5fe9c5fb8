/**
 * The integer skeleton of palette extraction (scripts/extract_colors.py): the rule that
 * picks the downsampled size, and the step after clustering that tallies the cluster
 * labels, ranks the clusters by size and formats each centre as `#rrggbb`. Clustering and
 * image decoding are library work: labels and centres are inputs.
 */
module ExtractColors {
  import ColorHex
  import opened Common

  function Max(a: int, b: int): int {
    if a >= b then a else b
  }

  function Min(a: int, b: int): int {
    if a <= b then a else b
  }

  /**
   * `max(1, min(100, int(width * 0.1)))`: a tenth of the width, at least 1 and at most
   * 100 pixels.
   */
  function TargetWidth(width: nat): (tw: nat)
    ensures 1 <= tw <= 100
    ensures width < 20 ==> tw == 1
    ensures 20 <= width < 1000 ==> tw * 10 <= width < (tw + 1) * 10
    ensures 1000 <= width ==> tw == 100
  {
    Max(1, Min(100, width / 10))
  }

  /** What `_resize_for_speed` does with the image: keep it, or resize it to these dimensions. */
  datatype ResizePlan = Keep | Resize(width: nat, height: nat)

  /**
   * `_resize_for_speed` on an image of the given dimensions: kept as it is when the target
   * width is not below the width, otherwise resized to the target width and the height
   * scaled by the same ratio, truncated, but at least 1.
   */
  function PlanResize(height: nat, width: nat): (p: ResizePlan)
    ensures p.Keep? <==> TargetWidth(width) >= width
    ensures p.Resize? ==> p.width == TargetWidth(width) && p.height >= 1
    ensures p.Resize? ==> p.width < width
  {
    var tw := TargetWidth(width);
    if tw >= width then Keep else Resize(tw, Max(1, height * tw / width))
  }

  /** The image is kept exactly when it is at most one pixel wide. */
  lemma KeepIffNarrow(height: nat, width: nat)
    ensures PlanResize(height, width).Keep? <==> width <= 1
  {
    var tw := TargetWidth(width);
    if width >= 20 {
      assert tw * 10 <= width || tw == 100;
    }
  }

  /** `(n * a) / b` is at most `n` when `a < b`. */
  lemma ScaledDown(n: nat, a: nat, b: nat)
    requires a < b
    ensures n * a / b <= n
  {
    assert n * a <= n * b by {
      MulMonotone(n, a, b);
    }
    DivBelow(n * a, n, b);
  }

  lemma MulMonotone(n: nat, a: nat, b: nat)
    requires a <= b
    ensures n * a <= n * b
  {
  }

  /** `x / b <= n` when `x <= n * b`. */
  lemma DivBelow(x: nat, n: nat, b: nat)
    requires 0 < b && x <= n * b
    ensures x / b <= n
  {
    assert (x / b) * b <= x;
    MulCancel(x / b, n, b);
  }

  /** `q * b <= n * b` with `b > 0` gives `q <= n`. */
  lemma MulCancel(q: nat, n: nat, b: nat)
    requires 0 < b && q * b <= n * b
    ensures q <= n
  {
    if q > n {
      MulMonotone(b, n + 1, q);
    }
  }

  /**
   * The rule never upscales: a resized image is narrower than the original and no taller
   * than it (or 1 pixel high).
   */
  lemma NeverUpscales(height: nat, width: nat)
    requires PlanResize(height, width).Resize?
    ensures PlanResize(height, width).width < width
    ensures PlanResize(height, width).height <= Max(1, height)
  {
    ScaledDown(height, TargetWidth(width), width);
  }

  /**
   * The height is truncated, not rounded: unless the lower bound of 1 applies, it is the
   * largest `h` with `h * width <= height * target_width`.
   */
  lemma HeightTruncates(height: nat, width: nat)
    requires PlanResize(height, width).Resize?
    ensures var p := PlanResize(height, width);
      p.height == 1 || (p.height * width <= height * p.width < (p.height + 1) * width)
  {
    var p := PlanResize(height, width);
    var x := height * p.width;
    if x / width >= 1 {
      assert p.height == x / width;
      assert p.height * width + x % width == x;
    }
  }

  /** One more than the largest label, 0 for no labels: the length `np.bincount` needs. */
  function LabelBound(s: seq<nat>): (b: nat)
    ensures forall i :: 0 <= i < |s| ==> s[i] < b
    ensures s == [] ==> b == 0
    ensures s != [] ==> exists i :: 0 <= i < |s| && s[i] + 1 == b
  {
    if s == [] then 0
    else
      var init := s[..|s| - 1];
      var b := Max(LabelBound(init), s[|s| - 1] + 1);
      assert forall i :: 0 <= i < |init| ==> init[i] == s[i];
      b
  }

  /** Labels all below `n` need no more than `n` counters. */
  lemma LabelBoundBelow(s: seq<nat>, n: nat)
    requires forall i :: 0 <= i < |s| ==> s[i] < n
    ensures Max(n, LabelBound(s)) == n
  {
  }

  /** The sum of a sequence of counts. */
  function Sum(c: seq<nat>): nat {
    if c == [] then 0 else Sum(c[..|c| - 1]) + c[|c| - 1]
  }

  /** A sequence of zeros sums to 0. */
  lemma {:induction false} SumOfZeros(c: seq<nat>)
    requires forall i :: 0 <= i < |c| ==> c[i] == 0
    ensures Sum(c) == 0
  {
    if c != [] {
      SumOfZeros(c[..|c| - 1]);
    }
  }

  /** Adding one to one count adds one to the sum. */
  lemma {:induction false} SumIncrement(c: seq<nat>, k: nat)
    requires k < |c|
    ensures Sum(c[k := c[k] + 1]) == Sum(c) + 1
  {
    var d := c[k := c[k] + 1];
    if k < |c| - 1 {
      assert d[..|d| - 1] == c[..|c| - 1][k := c[k] + 1];
      SumIncrement(c[..|c| - 1], k);
    } else {
      assert d[..|d| - 1] == c[..|c| - 1];
    }
  }

  /** The number of counters `np.bincount` allocates: `minlength`, or more if a label needs them. */
  method CountersNeeded(labels: array<nat>, minlength: nat) returns (len: nat)
    ensures len == Max(minlength, LabelBound(labels[..]))
  {
    len := minlength;
    for i := 0 to labels.Length
      invariant len == Max(minlength, LabelBound(labels[..i]))
    {
      assert labels[..i + 1][..i] == labels[..i];
      if labels[i] + 1 > len {
        len := labels[i] + 1;
      }
    }
    assert labels[..labels.Length] == labels[..];
  }

  /** Counter k of `c` holds the number of entries of `s` equal to k. */
  predicate Tallies(c: seq<nat>, s: seq<nat>) {
    forall k :: 0 <= k < |c| ==> c[k] == multiset(s)[k]
  }

  /** Counting one more label changes only its own counter. */
  lemma CountStep(s: seq<nat>, l: nat, c: seq<nat>)
    requires l < |c| && Tallies(c, s)
    ensures Tallies(c[l := c[l] + 1], s + [l])
  {
    assert multiset(s + [l]) == multiset(s) + multiset{l};
  }

  /** Counting label `s[i]` after the first `i` extends the tally by one label. */
  lemma TallyStep(s: seq<nat>, i: nat, c: seq<nat>)
    requires i < |s| && s[i] < |c| && Tallies(c, s[..i]) && Sum(c) == i
    ensures var d := c[s[i] := c[s[i]] + 1];
      Tallies(d, s[..i + 1]) && Sum(d) == i + 1
  {
    assert s[..i + 1] == s[..i] + [s[i]];
    SumIncrement(c, s[i]);
    CountStep(s[..i], s[i], c);
  }

  /** Every label is below the number of counters. */
  lemma LabelsFit(s: seq<nat>, len: nat, minlength: nat)
    requires len == Max(minlength, LabelBound(s))
    ensures forall i :: 0 <= i < |s| ==> s[i] < len
  {
  }

  /**
   * `np.bincount(labels, minlength)`: counter k holds the number of labels equal to k; there
   * are `minlength` counters, or more when a label needs them; and the counters sum to the
   * number of labels.
   */
  method Bincount(labels: array<nat>, minlength: nat) returns (counts: array<nat>)
    ensures counts.Length == Max(minlength, LabelBound(labels[..]))
    ensures Tallies(counts[..], labels[..])
    ensures Sum(counts[..]) == labels.Length
  {
    var len := CountersNeeded(labels, minlength);
    LabelsFit(labels[..], len, minlength);
    counts := new nat[len](_ => 0);
    SumOfZeros(counts[..]);
    for i := 0 to labels.Length
      invariant counts.Length == len
      invariant Tallies(counts[..], labels[..i])
      invariant Sum(counts[..]) == i
    {
      var l := labels[i];
      ghost var before := counts[..];
      TallyStep(labels[..], i, before);
      counts[l] := counts[l] + 1;
      assert counts[..] == before[l := before[l] + 1];
    }
    assert labels[..labels.Length] == labels[..];
  }

  /** The indices 0 to n - 1 in order. */
  function Range(n: nat): (r: seq<nat>)
    ensures |r| == n && forall i :: 0 <= i < n ==> r[i] == i
  {
    seq(n, i => i)
  }

  /** `order` holds each index from 0 to n - 1 exactly once. */
  predicate IsRangePermutation(order: seq<nat>, n: nat) {
    |order| == n && multiset(order) == multiset(Range(n))
  }

  /** Every entry of a permutation of the range is below `n`. */
  lemma PermutationBounded(order: seq<nat>, n: nat)
    requires IsRangePermutation(order, n)
    ensures forall i :: 0 <= i < |order| ==> order[i] < n
  {
    forall i | 0 <= i < |order| ensures order[i] < n {
      assert order[i] in multiset(Range(n));
    }
  }

  /** Every entry of `order` is a valid index into `counts`. */
  predicate IndexesInto(order: seq<nat>, counts: seq<nat>) {
    forall i :: 0 <= i < |order| ==> order[i] < |counts|
  }

  /** The counts read along `order` never increase. */
  predicate NonIncreasingAlong(counts: seq<nat>, order: seq<nat>)
    requires IndexesInto(order, counts)
  {
    forall i, j :: 0 <= i < j < |order| ==> counts[order[i]] >= counts[order[j]]
  }

  /** The first `i` entries of `order` are ranked by count, and none is below a later one. */
  predicate RankedPrefix(counts: seq<nat>, order: seq<nat>, i: nat)
    requires IndexesInto(order, counts) && i <= |order|
  {
    (forall a, b :: 0 <= a < b < i ==> counts[order[a]] >= counts[order[b]]) &&
    (forall a, b :: 0 <= a < i <= b < |order| ==> counts[order[a]] >= counts[order[b]])
  }

  /**
   * Swapping the largest of the unranked entries to position `i` ranks one entry more and
   * keeps the entries.
   */
  lemma SwapLargest(counts: seq<nat>, order: seq<nat>, i: nat, m: nat)
    requires IndexesInto(order, counts) && i <= m < |order|
    requires RankedPrefix(counts, order, i)
    requires forall k :: i <= k < |order| ==> counts[order[k]] <= counts[order[m]]
    ensures var o := order[i := order[m]][m := order[i]];
      IndexesInto(o, counts) && RankedPrefix(counts, o, i + 1) && multiset(o) == multiset(order)
  {
    SwapSorted(counts, order, i, m);
    SwapDominates(counts, order, i, m);
  }

  /** After the swap the first `i + 1` entries are ranked among themselves. */
  lemma SwapSorted(counts: seq<nat>, order: seq<nat>, i: nat, m: nat)
    requires IndexesInto(order, counts) && i <= m < |order|
    requires RankedPrefix(counts, order, i)
    ensures var o := order[i := order[m]][m := order[i]];
      IndexesInto(o, counts) &&
      forall a, b :: 0 <= a < b < i + 1 ==> counts[o[a]] >= counts[o[b]]
  {
    var o := order[i := order[m]][m := order[i]];
    forall a, b | 0 <= a < b < i + 1 ensures counts[o[a]] >= counts[o[b]] {
      assert o[a] == order[a];
      if b == i {
        assert o[b] == order[m];
      } else {
        assert o[b] == order[b];
      }
    }
  }

  /** After the swap none of the first `i + 1` entries is below a later one. */
  lemma SwapDominates(counts: seq<nat>, order: seq<nat>, i: nat, m: nat)
    requires IndexesInto(order, counts) && i <= m < |order|
    requires RankedPrefix(counts, order, i)
    requires forall k :: i <= k < |order| ==> counts[order[k]] <= counts[order[m]]
    ensures var o := order[i := order[m]][m := order[i]];
      IndexesInto(o, counts) &&
      forall a, b :: 0 <= a < i + 1 <= b < |o| ==> counts[o[a]] >= counts[o[b]]
  {
    var o := order[i := order[m]][m := order[i]];
    forall a, b | 0 <= a < i + 1 <= b < |o| ensures counts[o[a]] >= counts[o[b]] {
      assert o[b] == order[b] || o[b] == order[i];
      if a < i {
        assert o[a] == order[a];
      }
    }
  }

  /** The position, from `i` on, of an index with the largest count. */
  method LargestFrom(counts: seq<nat>, order: seq<nat>, i: nat) returns (m: nat)
    requires i < |order| && IndexesInto(order, counts)
    ensures i <= m < |order|
    ensures forall k :: i <= k < |order| ==> counts[order[k]] <= counts[order[m]]
  {
    m := i;
    for j := i + 1 to |order|
      invariant i <= m < j
      invariant forall k :: i <= k < j ==> counts[order[k]] <= counts[order[m]]
    {
      if counts[order[j]] > counts[order[m]] {
        m := j;
      }
    }
  }

  /**
   * `np.argsort(counts)[::-1]`: the cluster indices, each once, ordered by count from the
   * largest down. The order among equal counts is left open, as the source's sort is not
   * stable.
   */
  method ArgsortDescending(counts: array<nat>) returns (order: seq<nat>)
    ensures IsRangePermutation(order, counts.Length)
    ensures IndexesInto(order, counts[..])
    ensures NonIncreasingAlong(counts[..], order)
  {
    var c := counts[..];
    var n := |c|;
    order := Range(n);
    for i := 0 to n
      invariant |order| == n
      invariant multiset(order) == multiset(Range(n))
      invariant IndexesInto(order, c)
      invariant RankedPrefix(c, order, i)
    {
      var m := LargestFrom(c, order, i);
      SwapLargest(c, order, i, m);
      order := order[i := order[m]][m := order[i]];
    }
    RankedAll(c, order);
  }

  /** A fully ranked order is non-increasing. */
  lemma RankedAll(counts: seq<nat>, order: seq<nat>)
    requires IndexesInto(order, counts) && RankedPrefix(counts, order, |order|)
    ensures NonIncreasingAlong(counts, order)
  {
  }

  /** A cluster centre after `np.rint(...).astype(np.uint8)`: three bytes. */
  type Center = c: ColorHex.Channels | ColorHex.InByteRange(c) witness ColorHex.Channels(0, 0, 0)

  /**
   * The tail of `extract_dominant_colors`, given the cluster label of every pixel and the
   * `n_colors` centres: one `#rrggbb` string per cluster, the most populous cluster first.
   * The clustering library gives every pixel a label below `n_colors`.
   */
  method DominantColors(labels: array<nat>, centers: seq<Center>, nColors: nat)
    returns (palette: seq<string>, order: seq<nat>)
    requires |centers| == nColors
    requires forall i :: 0 <= i < labels.Length ==> labels[i] < nColors
    ensures IsRangePermutation(order, nColors)
    ensures forall i :: 0 <= i < |order| ==> order[i] < nColors
    ensures forall i, j :: 0 <= i < j < nColors ==>
      multiset(labels[..])[order[i]] >= multiset(labels[..])[order[j]]
    ensures |palette| == nColors
    ensures forall i :: 0 <= i < nColors ==>
      palette[i] == ColorHex.FormatRgb(centers[order[i]]) && |palette[i]| == 7
  {
    LabelBoundBelow(labels[..], nColors);
    var counts := Bincount(labels, nColors);
    order := ArgsortDescending(counts);
    palette := seq(nColors, i requires 0 <= i < nColors => ColorHex.FormatRgb(centers[order[i]]));
  }

  /**
   * What the libraries deliver for an image that could be read: resized, converted to RGB and
   * clustered by `KMeans.fit_predict`, a cluster label per pixel and the rounded centres.
   */
  datatype Clusters = Clusters(labels: seq<nat>, centers: seq<Center>)

  /** The clustering kept its promise: `nColors` centres, and every label one of them. */
  predicate FitsClusters(k: Clusters, nColors: nat) {
    |k.centers| == nColors && forall i :: 0 <= i < |k.labels| ==> k.labels[i] < nColors
  }

  /** The image was read and clustered without an exception. */
  predicate Clustered(result: Option<Result<Clusters>>) {
    result.Some? && result.value.Success?
  }

  /** What the libraries promise of their answer for `nColors` clusters, when there is one. */
  predicate KeepsPromise(result: Option<Result<Clusters>>, nColors: nat) {
    Clustered(result) ==> FitsClusters(result.value.value, nColors)
  }

  /**
   * `palette` lists the hex strings of the centres along `order`, a permutation of the
   * clusters under which pixel counts never increase.
   */
  predicate RankedBy(palette: seq<string>, k: Clusters, order: seq<nat>) {
    var n := |k.centers|;
    IsRangePermutation(order, n) && (forall i :: 0 <= i < |order| ==> order[i] < n) &&
    (forall i, j :: 0 <= i < j < n ==> multiset(k.labels)[order[i]] >= multiset(k.labels)[order[j]]) &&
    |palette| == n &&
    forall i :: 0 <= i < n ==> palette[i] == ColorHex.FormatRgb(k.centers[order[i]])
  }

  /** The exception `extract_dominant_colors` raises for a file `cv2.imread` cannot read. */
  function UnreadableImage(imagePath: string): Exception {
    OtherError("FileNotFoundError", "Cannot read image: " + imagePath)
  }

  /**
   * `extract_dominant_colors`: `cluster` stands for reading, resizing and clustering the image
   * (`None` when `cv2.imread` cannot read it, a failure for an exception of KMeans). An
   * unreadable image raises `FileNotFoundError`; otherwise the result lists the centres'
   * hex strings along `order`, the cluster ranking `sorted_indices`.
   */
  method ExtractDominantColors(imagePath: string, nColors: nat,
                               cluster: (string, nat) -> Option<Result<Clusters>>)
    returns (colors: Result<seq<string>>, order: seq<nat>)
    requires KeepsPromise(cluster(imagePath, nColors), nColors)
    ensures cluster(imagePath, nColors).None? ==> colors == Failure(UnreadableImage(imagePath))
    ensures cluster(imagePath, nColors).Some? && cluster(imagePath, nColors).value.Failure? ==>
      colors == Failure(cluster(imagePath, nColors).value.error)
    ensures Clustered(cluster(imagePath, nColors)) ==>
      colors.Success? && RankedBy(colors.value, cluster(imagePath, nColors).value.value, order)
  {
    order := [];
    match cluster(imagePath, nColors)
    case None =>
      colors := Failure(UnreadableImage(imagePath));
    case Some(Failure(e)) =>
      colors := Failure(e);
    case Some(Success(k)) =>
      var labels := new nat[|k.labels|](i requires 0 <= i < |k.labels| => k.labels[i]);
      assert labels[..] == k.labels;
      var palette;
      palette, order := DominantColors(labels, k.centers, nColors);
      colors := Success(palette);
  }
}

/**
  Sizes of mip levels and of the buffer that holds them: GetByteSize (src/Teide/TextureData.cpp),
  CopyImageToBuffer (src/Teide/Vulkan.cpp) and the level sizes of GenerateMipmaps
  (src/Teide/VulkanTexture.cpp).
 */
module MipChain {
  // ---------------------------------------------------------------- levels

  /** One halving, as std::max(1, x / 2) writes it. */
  function Half(x: nat): nat {
    if x / 2 < 1 then 1 else x / 2
  }

  /** The side of a level, one halving after the other. */
  function Side(x: nat, level: nat): nat {
    if level == 0 then x else Half(Side(x, level - 1))
  }

  function Pow2(n: nat): nat {
    if n == 0 then 1 else 2 * Pow2(n - 1)
  }

  function Max(a: int, b: int): int {
    if a < b then b else a
  }

  lemma {:induction false} Pow2Positive(n: nat)
    ensures Pow2(n) >= 1
  {
    if n > 0 { Pow2Positive(n - 1); }
  }

  /** The quotient is the one number that brackets x. */
  lemma {:induction false} QuotientIs(x: nat, p: nat, q: nat)
    requires p > 0 && q * p <= x < (q + 1) * p
    ensures x / p == q
  {
    var k := x / p;
    QuotientBounds(x, p);
    if k < q {
      MulMonotone(k + 1, q, p, p);
    } else if q < k {
      MulMonotone(q + 1, k, p, p);
    }
  }

  lemma {:induction false} HalveQuotient(x: nat, p: nat)
    requires p > 0
    ensures x / (2 * p) == (x / p) / 2
  {
    var q := x / p;
    var h := q / 2;
    QuotientBounds(x, p);
    MulMonotone(2 * h, q, p, p);
    MulMonotone(q + 1, 2 * h + 2, p, p);
    Twice(h, p);
    Twice(h + 1, p);
    QuotientIs(x, 2 * p, h);
  }

  lemma {:induction false} QuotientBounds(x: nat, p: nat)
    requires p > 0
    ensures (x / p) * p <= x < (x / p + 1) * p
  {
  }

  lemma {:induction false} Twice(h: nat, p: nat)
    ensures h * (2 * p) == (2 * h) * p
  {
  }

  /** Level i of a side of at least one texel measures max(1, x / 2^i). */
  lemma {:induction false} SideIsQuotient(x: nat, level: nat)
    requires x >= 1
    ensures Pow2(level) >= 1 && Side(x, level) == Max(1, x / Pow2(level))
  {
    Pow2Positive(level);
    if level > 0 {
      SideIsQuotient(x, level - 1);
      HalveQuotient(x, Pow2(level - 1));
    }
  }

  // ---------------------------------------------------------------- totals

  /** Bytes of one level, and of the first n levels, as unbounded numbers. */
  function LevelSize(w: nat, h: nat, pixel: nat, level: nat): nat {
    Side(w, level) * Side(h, level) * pixel
  }

  function TotalSize(w: nat, h: nat, pixel: nat, n: nat): nat {
    if n == 0 then 0 else TotalSize(w, h, pixel, n - 1) + LevelSize(w, h, pixel, n - 1)
  }

  function Wrap64(x: int): nat {
    x % 0x1_0000_0000_0000_0000
  }

  function Wrap32(x: int): nat {
    x % 0x1_0000_0000
  }

  /** The size in bytes, modulo the width of size_t. */
  method GetByteSize(w: nat, h: nat, pixel: nat, mipLevelCount: nat) returns (result: nat)
    ensures result == Wrap64(TotalSize(w, h, pixel, mipLevelCount))
  {
    result := 0;
    var mipw, miph, i := w, h, 0;
    while i < mipLevelCount
      invariant 0 <= i <= mipLevelCount && mipw == Side(w, i) && miph == Side(h, i)
      invariant result == Wrap64(TotalSize(w, h, pixel, i))
    {
      Wrap64Adds(TotalSize(w, h, pixel, i), mipw * miph * pixel);
      result := Wrap64(result + mipw * miph * pixel);
      mipw := Half(mipw);
      miph := Half(miph);
      i := i + 1;
    }
  }

  /** Level n adds the bytes of max(1, w / 2^n) by max(1, h / 2^n) pixels to what the levels before it take. */
  lemma {:induction false} LevelsAddUp(w: nat, h: nat, pixel: nat, n: nat)
    requires w >= 1 && h >= 1
    ensures Pow2(n) >= 1 && TotalSize(w, h, pixel, 0) == 0
    ensures TotalSize(w, h, pixel, n + 1) - TotalSize(w, h, pixel, n) ==
            Max(1, w / Pow2(n)) * Max(1, h / Pow2(n)) * pixel
  {
    SideIsQuotient(w, n);
    SideIsQuotient(h, n);
  }

  lemma {:induction false} Wrap64Adds(x: int, y: int)
    ensures Wrap64(Wrap64(x) + y) == Wrap64(x + y)
  {
  }

  lemma {:induction false} Wrap32Adds(x: int, y: int)
    ensures Wrap32(Wrap32(x) + y) == Wrap32(x + y)
  {
  }

  // ---------------------------------------------------------------- copy regions

  datatype Region = Region(offset: nat, level: nat, width: nat, height: nat)

  function RegionAt(w: nat, h: nat, pixel: nat, level: nat): Region {
    Region(Wrap32(TotalSize(w, h, pixel, level)), level, Side(w, level), Side(h, level))
  }

  function Regions(w: nat, h: nat, pixel: nat, n: nat): seq<Region> {
    if n == 0 then [] else Regions(w, h, pixel, n - 1) + [RegionAt(w, h, pixel, n - 1)]
  }

  /** The regions of an image-to-buffer copy; the running offset is a 32-bit number. */
  method CopyImageToBuffer(w: nat, h: nat, pixel: nat, numMipLevels: nat) returns (regions: seq<Region>)
    ensures regions == Regions(w, h, pixel, numMipLevels)
  {
    regions := [];
    var offset, i := 0, 0;
    var width, height, depth := w, h, 1;
    while i < numMipLevels
      invariant 0 <= i <= numMipLevels && width == Side(w, i) && height == Side(h, i) && depth == 1
      invariant offset == Wrap32(TotalSize(w, h, pixel, i)) && regions == Regions(w, h, pixel, i)
    {
      regions := regions + [Region(offset, i, width, height)];
      Wrap32Adds(TotalSize(w, h, pixel, i), width * height * pixel);
      assert width * height * depth * pixel == width * height * pixel;
      offset := Wrap32(offset + width * height * depth * pixel);
      width := Half(width);
      height := Half(height);
      depth := Half(depth);
      i := i + 1;
    }
  }

  function Bytes(r: Region, pixel: nat): nat {
    r.width * r.height * pixel
  }

  function EndBefore(regions: seq<Region>, pixel: nat, i: nat): nat
    requires i <= |regions|
  {
    if i == 0 then 0 else regions[i - 1].offset + Bytes(regions[i - 1], pixel)
  }

  ghost predicate StartsAtEnd(regions: seq<Region>, pixel: nat, i: nat) {
    i < |regions| ==> regions[i].offset == EndBefore(regions, pixel, i)
  }

  /** The regions cover [0, total) in level order, each starting where the one before it ends. */
  ghost predicate Tile(regions: seq<Region>, pixel: nat, total: nat) {
    && (forall i: nat :: StartsAtEnd(regions, pixel, i))
    && EndBefore(regions, pixel, |regions|) == total
  }

  lemma {:induction false} RegionsIndexed(w: nat, h: nat, pixel: nat, n: nat)
    ensures |Regions(w, h, pixel, n)| == n
    ensures forall i :: 0 <= i < n ==> Regions(w, h, pixel, n)[i] == RegionAt(w, h, pixel, i)
  {
    if n > 0 { RegionsIndexed(w, h, pixel, n - 1); }
  }

  /** The k-th region copies level k, all of it: max(1, w / 2^k) by max(1, h / 2^k). */
  lemma {:induction false} RegionsAreLevels(w: nat, h: nat, pixel: nat, n: nat, k: nat)
    requires w >= 1 && h >= 1 && k < n
    ensures |Regions(w, h, pixel, n)| == n && Pow2(k) >= 1
    ensures var r := Regions(w, h, pixel, n)[k];
            r.level == k && r.width == Max(1, w / Pow2(k)) && r.height == Max(1, h / Pow2(k))
  {
    RegionsIndexed(w, h, pixel, n);
    SideIsQuotient(w, k);
    SideIsQuotient(h, k);
  }

  lemma {:induction false} TotalGrows(w: nat, h: nat, pixel: nat, m: nat, n: nat)
    requires m <= n
    ensures TotalSize(w, h, pixel, m) <= TotalSize(w, h, pixel, n)
  {
    if m < n { TotalGrows(w, h, pixel, m, n - 1); }
  }

  lemma {:induction false} EndOfRegions(w: nat, h: nat, pixel: nat, n: nat, i: nat)
    requires 0 < i <= n
    ensures |Regions(w, h, pixel, n)| == n
    ensures EndBefore(Regions(w, h, pixel, n), pixel, i) == Wrap32(TotalSize(w, h, pixel, i - 1)) +
              LevelSize(w, h, pixel, i - 1)
  {
    RegionsIndexed(w, h, pixel, n);
    assert Regions(w, h, pixel, n)[i - 1] == RegionAt(w, h, pixel, i - 1);
  }

  lemma {:induction false} TileWhenFits(w: nat, h: nat, pixel: nat, n: nat)
    requires n > 0 && TotalSize(w, h, pixel, n - 1) < 0x1_0000_0000
    ensures Tile(Regions(w, h, pixel, n), pixel, TotalSize(w, h, pixel, n))
  {
    var regions := Regions(w, h, pixel, n);
    RegionsIndexed(w, h, pixel, n);
    forall i: nat ensures StartsAtEnd(regions, pixel, i) {
      if i < n { OffsetIsEnd(w, h, pixel, n, i); }
    }
    EndOfRegions(w, h, pixel, n, n);
  }

  lemma {:induction false} OffsetIsEnd(w: nat, h: nat, pixel: nat, n: nat, i: nat)
    requires i < n && TotalSize(w, h, pixel, n - 1) < 0x1_0000_0000
    ensures StartsAtEnd(Regions(w, h, pixel, n), pixel, i)
  {
    RegionsIndexed(w, h, pixel, n);
    TotalGrows(w, h, pixel, i, n - 1);
    assert Regions(w, h, pixel, n)[i].offset == TotalSize(w, h, pixel, i);
    if i > 0 {
      TotalGrows(w, h, pixel, i - 1, n - 1);
      EndOfRegions(w, h, pixel, n, i);
    }
  }

  /** If they tile, no offset has wrapped. */
  lemma {:induction false} TileNeverWraps(w: nat, h: nat, pixel: nat, n: nat, i: nat)
    requires i < n && Tile(Regions(w, h, pixel, n), pixel, TotalSize(w, h, pixel, n))
    ensures TotalSize(w, h, pixel, i) < 0x1_0000_0000
  {
    var regions := Regions(w, h, pixel, n);
    RegionsIndexed(w, h, pixel, n);
    assert StartsAtEnd(regions, pixel, i);
    if i > 0 {
      TileNeverWraps(w, h, pixel, n, i - 1);
      EndOfRegions(w, h, pixel, n, i);
      assert regions[i].offset == TotalSize(w, h, pixel, i);
      assert regions[i] == RegionAt(w, h, pixel, i);
    }
  }

  /**
    The copy regions tile the whole buffer, without gap or overlap, exactly when the bytes before the last
    level fit 32 bits.
   */
  lemma {:induction false} RegionsTileIff(w: nat, h: nat, pixel: nat, n: nat)
    requires n > 0
    ensures Tile(Regions(w, h, pixel, n), pixel, TotalSize(w, h, pixel, n)) <==>
              TotalSize(w, h, pixel, n - 1) < 0x1_0000_0000
  {
    if TotalSize(w, h, pixel, n - 1) < 0x1_0000_0000 {
      TileWhenFits(w, h, pixel, n);
    }
    if Tile(Regions(w, h, pixel, n), pixel, TotalSize(w, h, pixel, n)) {
      TileNeverWraps(w, h, pixel, n, n - 1);
    }
  }

  // ---------------------------------------------------------------- the full chain

  /** The number of levels down to one texel. */
  function FullChain(w: nat, h: nat): nat
    requires w >= 1 && h >= 1
    decreases w + h
  {
    if w == 1 && h == 1 then 1 else 1 + FullChain(Half(w), Half(h))
  }

  lemma {:induction false} FullChainIsLog(w: nat, h: nat)
    requires w >= 1 && h >= 1
    ensures FullChain(w, h) >= 1 && Pow2(FullChain(w, h) - 1) <= Max(w, h) < Pow2(FullChain(w, h))
    decreases w + h
  {
    if w == 1 && h == 1 {
      assert Pow2(0) == 1 && Pow2(1) == 2;
    } else {
      FullChainIsLog(Half(w), Half(h));
      assert Max(Half(w), Half(h)) == Max(w, h) / 2;
    }
  }

  /** Levels after the first are the levels of the halved image. */
  lemma {:induction false} SideOfHalf(x: nat, level: nat)
    ensures Side(x, level + 1) == Side(Half(x), level)
  {
    if level > 0 { SideOfHalf(x, level - 1); }
  }

  lemma {:induction false} TotalOfHalf(w: nat, h: nat, pixel: nat, n: nat)
    ensures TotalSize(w, h, pixel, n + 1) == w * h * pixel + TotalSize(Half(w), Half(h), pixel, n)
  {
    if n > 0 {
      TotalOfHalf(w, h, pixel, n - 1);
      SideOfHalf(w, n - 1);
      SideOfHalf(h, n - 1);
    } else {
      assert TotalSize(w, h, pixel, 1) == LevelSize(w, h, pixel, 0);
    }
  }

  lemma {:induction false} HalvingHalves(w: nat, h: nat)
    requires w >= 1 && h >= 1 && (w > 1 || h > 1)
    ensures 2 * (Half(w) * Half(h)) <= w * h
  {
    if w > 1 {
      assert 2 * Half(w) <= w && Half(h) <= h;
      MulMonotone(2 * Half(w), w, Half(h), h);
      assert 2 * (Half(w) * Half(h)) == (2 * Half(w)) * Half(h);
    } else {
      MulMonotone(Half(w), w, 2 * Half(h), h);
      assert 2 * (Half(w) * Half(h)) == Half(w) * (2 * Half(h));
    }
  }

  lemma {:induction false} MulMonotone(a: nat, b: nat, c: nat, d: nat)
    requires a <= b && c <= d
    ensures a * c <= b * d
  {
    assert a * c <= b * c <= b * d;
  }

  lemma {:induction false} TexelsBounded(w: nat, h: nat, n: nat)
    requires w >= 1 && h >= 1 && 1 <= n <= FullChain(w, h)
    ensures TotalSize(w, h, 1, n) <= 2 * (w * h) - 1
    decreases n
  {
    TotalOfHalf(w, h, 1, n - 1);
    assert w * h >= 1 by { MulMonotone(1, w, 1, h); }
    if n > 1 {
      HalvingHalves(w, h);
      TexelsBounded(Half(w), Half(h), n - 1);
    } else {
      assert TotalSize(Half(w), Half(h), 1, 0) == 0;
    }
  }

  lemma {:induction false} TotalScales(w: nat, h: nat, pixel: nat, n: nat)
    ensures TotalSize(w, h, pixel, n) == TotalSize(w, h, 1, n) * pixel
  {
    if n > 0 {
      TotalScales(w, h, pixel, n - 1);
      var texels := Side(w, n - 1) * Side(h, n - 1);
      assert LevelSize(w, h, 1, n - 1) == texels && LevelSize(w, h, pixel, n - 1) == texels * pixel;
      assert TotalSize(w, h, 1, n) * pixel == (TotalSize(w, h, 1, n - 1) + texels) * pixel;
      Distribute(TotalSize(w, h, 1, n - 1), texels, pixel);
    } else {
      assert TotalSize(w, h, 1, 0) * pixel == 0;
    }
  }

  lemma {:induction false} Distribute(a: nat, b: nat, c: nat)
    ensures (a + b) * c == a * c + b * c
  {
  }

  /** Up to the full chain all levels together take less than twice the first one. */
  lemma {:induction false} TotalBounded(w: nat, h: nat, pixel: nat, n: nat)
    requires w >= 1 && h >= 1 && n <= FullChain(w, h)
    ensures 2 * (w * h) - 1 >= 1 && TotalSize(w, h, pixel, n) <= (2 * (w * h) - 1) * pixel
  {
    assert w * h >= 1 by { MulMonotone(1, w, 1, h); }
    if n > 0 {
      TexelsBounded(w, h, n);
      TotalScales(w, h, pixel, n);
      MulMonotone(TotalSize(w, h, 1, n), 2 * (w * h) - 1, pixel, pixel);
    } else {
      MulMonotone(0, 2 * (w * h) - 1, pixel, pixel);
    }
  }
}

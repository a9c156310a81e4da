/**
 * The reference-SPAD mask filter of the device set-up (index.js).
 *
 * The map read from GLOBAL_CONFIG_SPAD_ENABLES_REF_0 holds one bit per
 * single-photon avalanche diode; the loop scans positions 0..47, reading SPAD i
 * from byte 1 + i / 8, and keeps only the first `count` enabled SPADs at or
 * after the first one to enable, clearing every other bit it scans. A byte
 * past the end of the map reads as no bit and is never written, as a Node
 * Buffer treats an out-of-range index.
 */
module ReferenceSpads {
  import opened I2CCore

  /** The number of SPAD positions the loop scans. */
  const ScannedSpads := 48

  /** The first aperture SPAD. */
  const FirstApertureSpad := 12

  /** 1 << k, for the eight bit positions of a byte. */
  function BitMask(k: int): (mask: bv8)
    requires 0 <= k < 8
    ensures mask != 0
  {
    if k == 0 then 1 else if k == 1 then 2 else if k == 2 then 4 else if k == 3 then 8
    else if k == 4 then 16 else if k == 5 then 32 else if k == 6 then 64 else 128
  }

  /** The byte that holds SPAD i: 1 + floor(i / 8). */
  function SpadByte(i: nat): nat
  {
    1 + i / 8
  }

  /** SPAD i is enabled in the map: ((map[1 + i/8] >> i % 8) & 1) > 0, no bit past the end. */
  predicate SpadBit(spadMap: seq<bv8>, i: nat)
  {
    SpadByte(i) < |spadMap| && spadMap[SpadByte(i)] & BitMask(i % 8) != 0
  }

  /** firstSpadToEnable: 12 when the aperture SPADs are used, else 0. */
  function FirstSpadToEnable(info: SpadInfo): (first: nat)
    ensures first == FirstApertureSpad <==> info.aperture
    ensures first == 0 <==> !info.aperture
  {
    if info.aperture then FirstApertureSpad else 0
  }

  /** The number of enabled SPADs at positions first <= j < end. */
  function SetCount(spadMap: seq<bv8>, first: nat, end: nat): (n: nat)
    ensures n <= if end <= first then 0 else end - first
  {
    if end <= first then 0
    else SetCount(spadMap, first, end - 1) + (if SpadBit(spadMap, end - 1) then 1 else 0)
  }

  /** SPAD i survives the filter: it is enabled, at or after first, and fewer than count enabled SPADs precede it from first on. */
  predicate Kept(spadMap: seq<bv8>, first: nat, count: nat, i: nat)
  {
    first <= i && SpadBit(spadMap, i) && SetCount(spadMap, first, i) < count
  }

  /** The number of positions below end that survive the filter. */
  function KeptCount(spadMap: seq<bv8>, first: nat, count: nat, end: nat): nat
  {
    if end == 0 then 0
    else KeptCount(spadMap, first, count, end - 1) + (if Kept(spadMap, first, count, end - 1) then 1 else 0)
  }

  function Min(a: int, b: int): int
  {
    if a <= b then a else b
  }

  /**
   * The filter keeps exactly min(count, enabled SPADs from first on) SPADs: the
   * first `count` enabled ones, or all of them when there are fewer.
   */
  lemma {:induction false} KeptTotal(spadMap: seq<bv8>, first: nat, count: nat, end: nat)
    ensures KeptCount(spadMap, first, count, end) == Min(count, SetCount(spadMap, first, end))
  {
    if end > 0 {
      KeptTotal(spadMap, first, count, end - 1);
    }
  }

  /** Clearing one bit of a byte leaves every other bit as it was and sets none. */
  lemma ClearBit(b: bv8, original: bv8, cleared: int, k: int)
    requires 0 <= cleared < 8 && 0 <= k < 8
    ensures (b & !BitMask(cleared)) & BitMask(k) != 0 <==> k != cleared && b & BitMask(k) != 0
    ensures b & original == b ==> (b & !BitMask(cleared)) & original == b & !BitMask(cleared)
    ensures b & BitMask(cleared) == 0 ==> b & !BitMask(cleared) == b
  {
  }

  /** spadMap[1 + i/8] &= ~(1 << i % 8); a write past the end of the map is dropped. */
  function ClearSpad(spadMap: seq<bv8>, i: nat): (cleared: seq<bv8>)
    ensures |cleared| == |spadMap|
    ensures forall k :: 0 <= k < |spadMap| && k != SpadByte(i) ==> cleared[k] == spadMap[k]
  {
    if SpadByte(i) < |spadMap| then spadMap[SpadByte(i) := spadMap[SpadByte(i)] & !BitMask(i % 8)] else spadMap
  }

  /** Clearing SPAD i disables it and leaves every other SPAD as it was. */
  lemma ClearSpadBits(spadMap: seq<bv8>, i: nat, j: nat)
    ensures SpadBit(ClearSpad(spadMap, i), j) <==> j != i && SpadBit(spadMap, j)
  {
    var index := SpadByte(i);
    if index < |spadMap| && SpadByte(j) == index {
      var b := spadMap[index];
      SameByteOtherBit(i, j);
      ClearBit(b, b, i % 8, j % 8);
    }
  }

  /** Two SPADs in the same byte are the same SPAD exactly when they have the same bit. */
  lemma SameByteOtherBit(i: nat, j: nat)
    requires SpadByte(i) == SpadByte(j)
    ensures i == j <==> i % 8 == j % 8
  {
    assert i == 8 * (i / 8) + i % 8 && j == 8 * (j / 8) + j % 8;
  }

  /** Clearing a SPAD keeps the map a bitwise subset of the original. */
  lemma ClearSpadSubset(spadMap: seq<bv8>, original: seq<bv8>, i: nat)
    requires |spadMap| == |original|
    ensures BitwiseSubset(spadMap, original) ==> BitwiseSubset(ClearSpad(spadMap, i), original)
  {
    if SpadByte(i) < |spadMap| {
      ClearBit(spadMap[SpadByte(i)], original[SpadByte(i)], i % 8, i % 8);
    }
  }

  /** Clearing a disabled SPAD changes nothing. */
  lemma ClearDisabledSpad(spadMap: seq<bv8>, i: nat)
    ensures !SpadBit(spadMap, i) ==> ClearSpad(spadMap, i) == spadMap
  {
    if SpadByte(i) < |spadMap| {
      ClearBit(spadMap[SpadByte(i)], spadMap[SpadByte(i)], i % 8, i % 8);
    }
  }

  /** Every bit set in `spadMap` is set in `original`. */
  predicate BitwiseSubset(spadMap: seq<bv8>, original: seq<bv8>)
  {
    |spadMap| == |original| && forall k :: 0 <= k < |spadMap| ==> spadMap[k] & original[k] == spadMap[k]
  }

  /** The map once positions 0..n-1 have been scanned: every scanned SPAD that does not survive is cleared. */
  function FilterPrefix(original: seq<bv8>, first: nat, count: nat, n: nat): (filtered: seq<bv8>)
    ensures |filtered| == |original|
  {
    if n == 0 then original
    else
      var previous := FilterPrefix(original, first, count, n - 1);
      if Kept(original, first, count, n - 1) then previous else ClearSpad(previous, n - 1)
  }

  /** After n positions have been scanned, exactly the surviving SPADs among them are enabled, and the unscanned ones are as they were. */
  lemma {:induction false} FilterPrefixBits(original: seq<bv8>, first: nat, count: nat, n: nat)
    ensures forall j: nat ::
      (SpadBit(FilterPrefix(original, first, count, n), j) <==> if j < n then Kept(original, first, count, j) else SpadBit(original, j))
  {
    if n > 0 {
      var previous := FilterPrefix(original, first, count, n - 1);
      var filtered := FilterPrefix(original, first, count, n);
      var kept := Kept(original, first, count, n - 1);
      FilterPrefixBits(original, first, count, n - 1);
      assert filtered == (if kept then previous else ClearSpad(previous, n - 1));
      forall j: nat
        ensures (SpadBit(filtered, j) <==> if j < n then Kept(original, first, count, j) else SpadBit(original, j))
      {
        ClearSpadBits(previous, n - 1, j);
      }
    }
  }

  /** The scan sets no bit. */
  lemma {:induction false} FilterPrefixSubset(original: seq<bv8>, first: nat, count: nat, n: nat)
    ensures BitwiseSubset(FilterPrefix(original, first, count, n), original)
  {
    if n > 0 {
      var previous := FilterPrefix(original, first, count, n - 1);
      FilterPrefixSubset(original, first, count, n - 1);
      ClearSpadSubset(previous, original, n - 1);
    } else {
      forall k | 0 <= k < |original|
        ensures original[k] & original[k] == original[k]
      {
        ClearBit(original[k], original[k], 0, 0);
      }
    }
  }

  /** Byte 0 and every byte holding only unscanned positions are untouched. */
  lemma {:induction false} FilterPrefixUntouched(original: seq<bv8>, first: nat, count: nat, n: nat)
    ensures forall k :: 0 <= k < |original| && (k == 0 || 8 * (k - 1) >= n) ==>
      FilterPrefix(original, first, count, n)[k] == original[k]
  {
    if n > 0 {
      var previous := FilterPrefix(original, first, count, n - 1);
      var filtered := FilterPrefix(original, first, count, n);
      FilterPrefixUntouched(original, first, count, n - 1);
      forall k | 0 <= k < |original| && (k == 0 || 8 * (k - 1) >= n)
        ensures filtered[k] == original[k]
      {
        assert k != SpadByte(n - 1);
        assert filtered[k] == previous[k];
      }
    }
  }

  /**
   * One step of the scan: the counter of enabled SPADs so far decides whether
   * SPAD i survives, and grows by one exactly when it does.
   */
  lemma CountStep(spadMap: seq<bv8>, first: nat, count: nat, i: nat, enabled: int)
    requires enabled == Min(count, SetCount(spadMap, first, i))
    ensures Kept(spadMap, first, count, i) <==> first <= i && enabled != count && SpadBit(spadMap, i)
    ensures Min(count, SetCount(spadMap, first, i + 1)) == enabled + (if Kept(spadMap, first, count, i) then 1 else 0)
  {
  }

  /** The next position to scan still holds its original bit. */
  lemma UnscannedBit(original: seq<bv8>, first: nat, count: nat, n: nat)
    ensures SpadBit(FilterPrefix(original, first, count, n), n) <==> SpadBit(original, n)
  {
    FilterPrefixBits(original, first, count, n);
  }

  /**
   * What the filter leaves of a map: positions below the first SPAD to enable
   * are cleared; from there on the first `count` enabled SPADs stay enabled and
   * all others are cleared; no bit is set; byte 0 and every byte past position
   * 47 are left alone.
   */
  lemma FilteredMap(original: seq<bv8>, info: SpadInfo)
    ensures var filtered := FilterPrefix(original, FirstSpadToEnable(info), info.count, ScannedSpads);
      (forall i :: 0 <= i < ScannedSpads ==>
        (SpadBit(filtered, i) <==> Kept(original, FirstSpadToEnable(info), info.count, i))) &&
      (forall i :: 0 <= i < FirstSpadToEnable(info) ==> !SpadBit(filtered, i)) &&
      BitwiseSubset(filtered, original) &&
      (forall k :: 0 <= k < |original| && (k == 0 || k > ScannedSpads / 8) ==> filtered[k] == original[k])
  {
    FilterPrefixBits(original, FirstSpadToEnable(info), info.count, ScannedSpads);
    FilterPrefixSubset(original, FirstSpadToEnable(info), info.count, ScannedSpads);
    FilterPrefixUntouched(original, FirstSpadToEnable(info), info.count, ScannedSpads);
  }

  /**
   * One pass of the scan loop's body, at position i: clear SPAD i when it lies
   * before the first SPAD to enable or `count` SPADs are already kept, else
   * count it when it is enabled.
   */
  method ScanSpad(spadMap: array<bv8>, i: nat, first: nat, count: nat, spadsEnabled: nat) returns (enabled: nat)
    modifies spadMap
    ensures spadMap[..] == if i < first || spadsEnabled == count then ClearSpad(old(spadMap[..]), i) else old(spadMap[..])
    ensures enabled == if i < first || spadsEnabled == count || !SpadBit(old(spadMap[..]), i) then spadsEnabled else spadsEnabled + 1
  {
    var index := SpadByte(i);
    enabled := spadsEnabled;
    if i < first || spadsEnabled == count {
      if index < spadMap.Length {
        spadMap[index] := spadMap[index] & !BitMask(i % 8);
      }
    } else if index < spadMap.Length && spadMap[index] & BitMask(i % 8) != 0 {
      enabled := spadsEnabled + 1;
    }
  }

  /**
   * The SPAD loop of the device set-up, in place on the map: the map becomes
   * the filtered one (FilteredMap says what survives).
   */
  method FilterReferenceSpads(spadMap: array<bv8>, info: SpadInfo)
    modifies spadMap
    ensures spadMap[..] == FilterPrefix(old(spadMap[..]), FirstSpadToEnable(info), info.count, ScannedSpads)
  {
    ghost var original := spadMap[..];
    var first := FirstSpadToEnable(info);
    var spadsEnabled := 0;
    for i := 0 to ScannedSpads
      invariant spadsEnabled == Min(info.count, SetCount(original, first, i))
      invariant spadMap[..] == FilterPrefix(original, first, info.count, i)
    {
      UnscannedBit(original, first, info.count, i);
      CountStep(original, first, info.count, i, spadsEnabled);
      ClearDisabledSpad(spadMap[..], i);
      spadsEnabled := ScanSpad(spadMap, i, first, info.count, spadsEnabled);
    }
  }
}

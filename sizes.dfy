/** The unit choice of `format_bytes` (src/main.rs:181-192): repeated division
    by 1024, capped at gigabytes. */
module Sizes {
  import opened Types

  const Units: seq<string> := ["B", "KB", "MB", "GB"]

  function Pow1024(k: nat): (p: nat)
    ensures p >= 1
  {
    if k == 0 then 1 else 1024 * Pow1024(k - 1)
  }

  lemma {:induction false} Pow1024Grows(j: nat, k: nat)
    requires j <= k
    ensures Pow1024(j) <= Pow1024(k)
  {
    if j < k {
      Pow1024Grows(j, k - 1);
    }
  }

  /** `k` is the unit shown for `bytes`: the largest index of `Units` whose
      unit does not exceed `bytes` (index 0 when `bytes` is below 1024). */
  ghost predicate IsUnitFor(bytes: nat, k: nat) {
    && k < |Units|
    && (k == 0 || Pow1024(k) <= bytes)
    && (k == |Units| - 1 || bytes < Pow1024(k + 1))
  }

  /** There is only one such unit. */
  lemma UnitIsUnique(bytes: nat, j: nat, k: nat)
    requires IsUnitFor(bytes, j) && IsUnitFor(bytes, k)
    ensures j == k
  {
    if j < k {
      Pow1024Grows(j + 1, k);
    } else if k < j {
      Pow1024Grows(k + 1, j);
    }
  }

  /** The loop of `format_bytes`: divides while the value is at least 1024
      and a larger unit is left. Returns the value shown and the unit's index
      and name. */
  method FormatBytes(bytes: u64) returns (size: real, index: nat, unit: string)
    ensures IsUnitFor(bytes, index) && unit == Units[index]
    ensures size * Pow1024(index) as real == bytes as real
    ensures index < |Units| - 1 ==> size < 1024.0
  {
    size := bytes as real;
    index := 0;
    while size >= 1024.0 && index < |Units| - 1
      invariant index < |Units|
      invariant size * Pow1024(index) as real == bytes as real
      invariant index == 0 || Pow1024(index) <= bytes
      invariant size >= 0.0
    {
      size := size / 1024.0;
      index := index + 1;
    }
    unit := Units[index];
  }

  /** Worked examples: 500 bytes stay in B, 2048 is 2.0 KB, 1572864 is 1.5 MB,
      1073741824 is 1.0 GB. */
  lemma UnitExamples()
    ensures IsUnitFor(500, 0)
    ensures IsUnitFor(2048, 1) && 2048.0 / Pow1024(1) as real == 2.0
    ensures IsUnitFor(1572864, 2) && 1572864.0 / Pow1024(2) as real == 1.5
    ensures IsUnitFor(1073741824, 3) && 1073741824.0 / Pow1024(3) as real == 1.0
  {
    assert Pow1024(1) == 1024;
    assert Pow1024(2) == 1048576;
    assert Pow1024(3) == 1073741824;
  }

  /** What `FormatBytes` returns for the worked examples: 500 B, 2.0 KB,
      1.5 MB and 1.0 GB. */
  method FormatExamples()
  {
    UnitExamples();
    var size, index, unit := FormatBytes(500);
    UnitIsUnique(500, index, 0);
    assert index == 0 && size == 500.0 && unit == "B";
    size, index, unit := FormatBytes(2048);
    UnitIsUnique(2048, index, 1);
    assert index == 1 && size == 2.0 && unit == "KB";
    size, index, unit := FormatBytes(1572864);
    UnitIsUnique(1572864, index, 2);
    assert index == 2 && size == 1.5 && unit == "MB";
    size, index, unit := FormatBytes(1073741824);
    UnitIsUnique(1073741824, index, 3);
    assert index == 3 && size == 1.0 && unit == "GB";
  }
}

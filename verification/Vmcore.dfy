/** A dump file that is written at given offsets (`write_buffer`, qemu/dump.c). */
module Vmcore {
  import opened Basics

  /** The bytes of the file; what was never written reads as some byte. */
  type Disk<T> = nat -> T

  function Written<T>(disk: Disk<T>, at: nat, data: seq<T>): Disk<T> {
    (x: nat) => if at <= x < at + |data| then data[x - at] else disk(x)
  }

  /** Nothing outside these bytes changes. */
  ghost predicate OutsideKept<T(!new)>(disk: Disk<T>, disk': Disk<T>, lo: nat, hi: nat) {
    forall x: nat {:trigger disk'(x)} :: x < lo || hi <= x ==> disk'(x) == disk(x)
  }

  lemma WrittenInside<T(!new)>(disk: Disk<T>, disk': Disk<T>, lo: nat, hi: nat, at: nat, data: seq<T>)
    requires OutsideKept(disk, disk', lo, hi) && lo <= at && at + |data| <= hi
    ensures OutsideKept(disk, Written(disk', at, data), lo, hi)
  {
  }

  lemma KeptNone(disk: Disk<byte>, lo: nat, hi: nat)
    ensures OutsideKept(disk, disk, lo, hi)
  {
  }

  lemma KeptWider(disk: Disk<byte>, disk': Disk<byte>, lo: nat, hi: nat, lo': nat, hi': nat)
    requires OutsideKept(disk, disk', lo, hi) && lo' <= lo && hi <= hi'
    ensures OutsideKept(disk, disk', lo', hi')
  {
  }

  lemma KeptTwice(disk0: Disk<byte>, disk1: Disk<byte>, disk2: Disk<byte>, lo: nat, hi: nat)
    requires OutsideKept(disk0, disk1, lo, hi) && OutsideKept(disk1, disk2, lo, hi)
    ensures OutsideKept(disk0, disk2, lo, hi)
  {
    forall x: nat {:trigger disk2(x)} | x < lo || hi <= x ensures disk2(x) == disk0(x) {
      assert disk1(x) == disk0(x);
    }
  }

  lemma KeptGrows(disk0: Disk<byte>, disk1: Disk<byte>, disk2: Disk<byte>, lo: nat, hi: nat, hi': nat)
    requires OutsideKept(disk0, disk1, lo, hi) && OutsideKept(disk1, disk2, lo, hi') && hi <= hi'
    ensures OutsideKept(disk0, disk2, lo, hi')
  {
    KeptWider(disk0, disk1, lo, hi, lo, hi');
    KeptTwice(disk0, disk1, disk2, lo, hi');
  }

  /** The file has these bytes there. */
  ghost predicate OnFile<T(!new)>(disk: Disk<T>, at: nat, s: seq<T>) {
    forall k: nat {:trigger s[k]} :: k < |s| ==> disk(at + k) == s[k]
  }

  lemma WrittenAppends<T(!new)>(disk: Disk<T>, at: nat, s: seq<T>, data: seq<T>)
    requires OnFile(disk, at, s)
    ensures OnFile(Written(disk, at + |s|, data), at, s + data)
  {
    var disk' := Written(disk, at + |s|, data);
    forall k: nat {:trigger (s + data)[k]} | k < |s + data| ensures disk'(at + k) == (s + data)[k] {
      if k < |s| {
        assert disk(at + k) == s[k];
      }
    }
  }

  lemma KeptOnFile<T(!new)>(disk: Disk<T>, disk': Disk<T>, lo: nat, hi: nat, at: nat, s: seq<T>)
    requires OnFile(disk, at, s) && OutsideKept(disk, disk', lo, hi) && (at + |s| <= lo || hi <= at)
    ensures OnFile(disk', at, s)
  {
    forall k: nat {:trigger s[k]} | k < |s| ensures disk'(at + k) == s[k] {
      assert disk(at + k) == s[k];
    }
  }

  /** What a reader gets. */
  function Slice<T>(disk: Disk<T>, at: nat, n: nat): (s: seq<T>)
    ensures |s| == n
  {
    if n == 0 then [] else Slice(disk, at, n - 1) + [disk(at + n - 1)]
  }

  lemma {:induction false} SliceReads<T(!new)>(disk: Disk<T>, at: nat, s: seq<T>, k: nat, n: nat)
    requires OnFile(disk, at, s) && k + n <= |s|
    ensures Slice(disk, at + k, n) == s[k..k + n]
    decreases n
  {
    if n > 0 {
      SliceReads(disk, at, s, k, n - 1);
      assert s[k..k + n] == s[k..k + n - 1] + [s[k + n - 1]];
      assert disk(at + (k + n - 1)) == s[k + n - 1];
    }
  }

  class File {
    var disk: Disk<byte>

    constructor (disk: Disk<byte>)
      ensures this.disk == disk
    {
      this.disk := disk;
    }

    /** `write_buffer` */
    method WriteBuffer(at: nat, data: seq<byte>)
      modifies this
      ensures disk == Written(old(disk), at, data)
    {
      disk := Written(disk, at, data);
    }
  }
}

/**
 * The dynamic byte strings of src/common/dstr.c.  A byte is written as the character with
 * its code; the terminating NUL behind the text is not part of the model.
 */
module Dstr {
  /** The text before the first NUL, which is all that `strlen` and its users see. */
  function CString(s: string): (r: string)
    ensures '\0' !in r
    ensures '\0' !in s ==> r == s
    ensures r <= s && (|r| < |s| ==> s[|r|] == '\0')
  {
    if s == [] || s[0] == '\0' then [] else [s[0]] + CString(s[1..])
  }

  /** `memcmp` on buffers of one length, as the sign of the first difference. */
  function MemCmp(a: string, b: string): (r: int)
    requires |a| == |b|
    ensures r == 0 <==> a == b
  {
    if a == [] then 0
    else if a[0] < b[0] then -1
    else if a[0] > b[0] then 1
    else MemCmp(a[1..], b[1..])
  }

  /** `dcmp`, `dcmpcs` and `dcmpmem`: shorter strings come first. */
  function Cmp(a: string, b: string): (r: int)
    ensures r == 0 <==> a == b
  {
    if |a| < |b| then -1 else if |a| > |b| then 1 else MemCmp(a, b)
  }

  lemma {:induction false} MemCmpOrders(a: string, b: string, c: string)
    requires |a| == |b| == |c|
    ensures MemCmp(b, a) == -MemCmp(a, b)
    ensures MemCmp(a, b) <= 0 && MemCmp(b, c) <= 0 ==> MemCmp(a, c) <= 0
  {
    if a != [] {
      MemCmpOrders(a[1..], b[1..], c[1..]);
    }
  }

  /** The comparison is a total order, equal only on equal strings. */
  lemma CmpOrders(a: string, b: string, c: string)
    ensures Cmp(b, a) == -Cmp(a, b)
    ensures Cmp(a, b) <= 0 && Cmp(b, c) <= 0 ==> Cmp(a, c) <= 0
  {
    if |a| == |b| {
      MemCmpOrders(a, b, a);
      if |b| == |c| {
        MemCmpOrders(a, b, c);
      }
    }
  }

  /** Which order: a shorter string first, and of one length the one with the lesser byte where
      they first differ. */
  lemma CmpIsShortlex(a: string, b: string)
    ensures Cmp(a, b) < 0 <==>
              |a| < |b| || (|a| == |b| && exists i :: 0 <= i < |a| && a[..i] == b[..i] && a[i] < b[i])
  {
    if |a| == |b| {
      MemCmpIsFirst(a, b);
    }
  }

  lemma {:induction false} MemCmpIsFirst(a: string, b: string)
    requires |a| == |b|
    ensures MemCmp(a, b) < 0 <==> exists i :: 0 <= i < |a| && a[..i] == b[..i] && a[i] < b[i]
  {
    if a != [] {
      MemCmpIsFirst(a[1..], b[1..]);
      if a[0] == b[0] {
        if MemCmp(a[1..], b[1..]) < 0 {
          var i :| 0 <= i < |a[1..]| && a[1..][..i] == b[1..][..i] && a[1..][i] < b[1..][i];
          assert a[..i + 1] == [a[0]] + a[1..][..i] == b[..i + 1];
        }
        forall i | 0 <= i < |a| && a[..i] == b[..i] && a[i] < b[i]
          ensures MemCmp(a[1..], b[1..]) < 0
        {
          assert i > 0;
          assert a[1..][..i - 1] == a[..i][1..] == b[..i][1..] == b[1..][..i - 1];
          assert a[1..][i - 1] < b[1..][i - 1];
        }
      } else if a[0] < b[0] {
        assert a[..0] == b[..0];
      }
    }
  }

  /** `dsub`: out-of-range arguments are clamped. */
  function Sub(a: string, start: nat, length: nat): string {
    if start > |a| then ""
    else if start + length > |a| then a[start..]
    else a[start..start + length]
  }

  /** b stands at index i of a. */
  predicate OccursAt(a: string, b: string, i: int) {
    0 <= i <= |a| - |b| && a[i..i + |b|] == b
  }

  /** The first occurrence of `on` in the text at `start` or later, or -1. */
  function Find(text: string, on: string, start: nat): (r: int)
    ensures r == -1 || start <= r <= |text| - |on|
    decreases |text| - start
  {
    if start > |text| then -1
    else if OccursAt(text, on, start) then start
    else Find(text, on, start + 1)
  }

  lemma {:induction false} FindFirst(text: string, on: string, start: nat)
    ensures Find(text, on, start) == -1 <==> forall i :: start <= i ==> !OccursAt(text, on, i)
    ensures Find(text, on, start) != -1 ==> OccursAt(text, on, Find(text, on, start))
    ensures forall i :: start <= i < Find(text, on, start) ==> !OccursAt(text, on, i)
    decreases |text| - start
  {
    if start <= |text| && !OccursAt(text, on, start) {
      FindFirst(text, on, start + 1);
      if Find(text, on, start) == -1 {
        assert forall i :: start + 1 <= i ==> !OccursAt(text, on, i);
      }
    }
  }

  /** `dpos`. */
  method Pos(a: string, b: string, start: nat) returns (pos: int)
    ensures pos == Find(a, b, start)
  {
    FindFirst(a, b, start);
    if |a| < |b| {
      return -1;
    }
    var last := |a| - |b|;
    if start > last {
      return -1;
    }
    var i := start;
    while i <= last
      invariant start <= i <= last + 1
      invariant forall k :: start <= k < i ==> !OccursAt(a, b, k)
    {
      if a[i..i + |b|] == b {
        assert OccursAt(a, b, i);
        return i;
      }
      i := i + 1;
    }
    return -1;
  }

  const INITIAL_SIZE := 32

  function Align(l: nat): (r: nat)
    ensures l < r <= l + 64 && r % 64 == 0
  {
    (l / 64 + 1) * 64
  }

  class DString {
    var data: array<char>
    var len: nat

    ghost predicate Valid()
      reads this
    {
      len <= data.Length
    }

    ghost function Text(): string
      reads this, data
      requires Valid()
    {
      data[..len]
    }

    /** `dnew`; the buffer's content is unspecified. */
    constructor ()
      ensures Valid() && fresh(data) && Text() == ""
    {
      data := new char[INITIAL_SIZE];
      len := 0;
    }

    /** `dclear` keeps the buffer. */
    method Clear()
      requires Valid()
      modifies this`len
      ensures Valid() && Text() == ""
    {
      len := 0;
    }

    /** `add_size`: room for `size` more bytes, moving the text if need be. */
    method AddSize(size: nat)
      requires Valid()
      modifies this`data
      ensures Valid() && Text() == old(Text())
      ensures len + size <= data.Length
      ensures data == old(data) || fresh(data)
      ensures data == old(data) <==> len + size <= old(data).Length
    {
      if len + size <= data.Length {
        return;
      }
      var newSize := Align(len + size);
      var tmp := new char[newSize];
      forall i | 0 <= i < len {
        tmp[i] := data[i];
      }
      data := tmp;
    }

    /** `memcpy` behind the text. */
    method CopyIn(src: string)
      requires Valid() && len + |src| <= data.Length
      modifies this`len, data
      ensures Valid() && Text() == old(Text()) + src
    {
      forall i | 0 <= i < |src| {
        data[len + i] := src[i];
      }
      len := len + |src|;
    }

    /** `dcat`, `dcatcs` (terminator reserved). */
    method Cat(src: string)
      requires Valid()
      modifies this, data
      ensures Valid() && (data == old(data) || fresh(data))
      ensures Text() == old(Text()) + src
    {
      AddSize(|src| + 1);
      CopyIn(src);
    }

    /** `dcatmem`. */
    method CatMem(src: string)
      requires Valid()
      modifies this, data
      ensures Valid() && (data == old(data) || fresh(data))
      ensures Text() == old(Text()) + src
    {
      AddSize(|src|);
      CopyIn(src);
    }

    /** `dcatc`. */
    method CatC(src: char)
      requires Valid()
      modifies this, data
      ensures Valid() && (data == old(data) || fresh(data))
      ensures Text() == old(Text()) + [src]
    {
      AddSize(1);
      data[len] := src;
      len := len + 1;
    }

    /** `set_size` and `memcpy` of `dcpymem`, `dcpy` and `dcpycs`: a new buffer is taken
        unless the old one is as large as needed and at most 32 bytes larger. */
    method Cpy(src: string)
      requires Valid()
      modifies this, data
      ensures Valid() && (data == old(data) || fresh(data))
      ensures Text() == src
    {
      var newSize := Align(|src| + 1);
      if !(newSize <= data.Length <= newSize + 32) {
        data := new char[newSize];
      }
      len := 0;
      CopyIn(src);
    }
  }
}

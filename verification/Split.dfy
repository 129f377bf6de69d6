/**
 * Splitting and joining: `dsplit` and `dlist_join` of src/common/dstrutils.c.  A string
 * list is the sequence of its strings.
 */
module Split {
  import opened Options
  import opened Dstr

  /** `dlist_join`. */
  function Join(list: seq<string>, glue: string): string {
    if list == [] then ""
    else if |list| == 1 then list[0]
    else list[0] + glue + Join(list[1..], glue)
  }

  predicate Contains(a: string, b: string) {
    exists i :: 0 <= i <= |a| - |b| && OccursAt(a, b, i)
  }

  /** The loop of `dsplit` from the moment when k pieces were cut off before byte j.  It
      stops cutting when the next piece would be the `max`-th. */
  function Cut(text: string, on: string, max: nat, j: nat, k: nat, done: seq<string>): seq<string>
    requires on != "" && j <= |text|
    decreases |text| - j
  {
    var i := Find(text, on, j);
    if i == -1 then done + [Sub(text, j, |text| - j)]
    else
      var cut, next := done + [Sub(text, j, i - j)], i + |on|;
      if k + 2 == max then cut + [Sub(text, next, |text| - next)]
      else Cut(text, on, max, next, k + 1, cut)
  }

  /** An unlimited split is limited to as many pieces as the text has bytes. */
  function Limit(text: string, max: nat): nat {
    if max == 0 then |text| else max
  }

  function Pieces(text: string, on: string, max: nat): seq<string>
    requires on != ""
  {
    if max == 1 then [text] else Cut(text, on, Limit(text, max), 0, 0, [])
  }

  method DSplit(text: string, on: string, max: nat) returns (result: seq<string>)
    requires on != ""
    ensures result == Pieces(text, on, max)
  {
    result := [];
    if max == 1 {
      return [text];
    }
    var limit := if max == 0 then |text| else max;
    ghost var all := Pieces(text, on, max);
    var j, k := 0, 0;
    var i := Pos(text, on, 0);
    while i != -1
      invariant j <= |text| && i == Find(text, on, j)
      invariant Same(Cut(text, on, limit, j, k, result), all)
      decreases |text| - j
    {
      result := result + [Sub(text, j, i - j)];
      k := k + 1;
      j := i + |on|;
      if k + 1 == limit {
        result := result + [Sub(text, j, |text| - j)];
        return;
      }
      i := Pos(text, on, j);
    }
    result := result + [Sub(text, j, |text| - j)];
  }

  /** The pieces still to come. */
  function Rest(text: string, on: string, max: nat, j: nat, k: nat): seq<string>
    requires on != "" && j <= |text|
  {
    Cut(text, on, max, j, k, [])
  }

  lemma {:induction false} CutAppends(text: string, on: string, max: nat, j: nat, k: nat, done: seq<string>)
    requires on != "" && j <= |text|
    ensures Cut(text, on, max, j, k, done) == done + Rest(text, on, max, j, k)
    decreases |text| - j
  {
    var i := Find(text, on, j);
    if i != -1 && k + 2 != max {
      var piece, next := Sub(text, j, i - j), i + |on|;
      CutAppends(text, on, max, next, k + 1, done + [piece]);
      CutAppends(text, on, max, next, k + 1, [piece]);
      assert [] + [piece] == [piece];
      assert done + [piece] + Rest(text, on, max, next, k + 1) == done + ([piece] + Rest(text, on, max, next, k + 1));
    }
  }

  /** What is still to come starts with the text up to the next separator. */
  lemma RestStep(text: string, on: string, max: nat, j: nat, k: nat)
    requires on != "" && j <= |text|
    ensures var i, rest := Find(text, on, j), Rest(text, on, max, j, k);
            && rest != []
            && (i == -1 ==> rest == [text[j..]])
            && (i != -1 ==> rest[0] == text[j..i])
            && (i != -1 && k + 2 == max ==> rest[1..] == [text[i + |on|..]])
            && (i != -1 && k + 2 != max ==> rest[1..] == Rest(text, on, max, i + |on|, k + 1))
  {
    var i := Find(text, on, j);
    assert text[j..|text|] == text[j..];
    if i != -1 {
      assert [] + [text[j..i]] == [text[j..i]];
      assert text[i + |on|..|text|] == text[i + |on|..];
      if k + 2 != max {
        CutAppends(text, on, max, i + |on|, k + 1, [text[j..i]]);
      }
    }
  }

  lemma JoinStep(done: string, list: seq<string>, glue: string)
    requires list != []
    ensures done + Join(list, glue) ==
              if |list| == 1 then done + list[0] else done + list[0] + glue + Join(list[1..], glue)
  {
  }

  /** `dlist_join` walks the list once, gluing between nodes. */
  method DJoin(list: seq<string>, glue: string) returns (s: string)
    ensures s == Join(list, glue)
  {
    var buffer := new DString();
    var node := list;
    ghost var all := Join(list, glue);
    while node != []
      invariant buffer.Valid() && fresh(buffer) && fresh(buffer.data)
      invariant buffer.Text() + Join(node, glue) == all
      decreases |node|
    {
      JoinStep(buffer.Text(), node, glue);
      buffer.Cat(node[0]);
      node := node[1..];
      if node != [] {
        buffer.Cat(glue);
      }
    }
    s := buffer.data[..buffer.len];
  }

  // ----- joining what was split -----

  lemma {:induction false} JoinRest(text: string, on: string, max: nat, j: nat, k: nat)
    requires on != "" && j <= |text|
    ensures Join(Rest(text, on, max, j, k), on) == text[j..]
    decreases |text| - j
  {
    var i := Find(text, on, j);
    RestStep(text, on, max, j, k);
    if i != -1 {
      var later := text[i + |on|..];
      assert text[j..] == text[j..i] + on + later by { FindFirst(text, on, j); }
      if k + 2 == max {
        assert [text[j..i], later][1..] == [later];
      } else {
        var rest := Rest(text, on, max, i + |on|, k + 1);
        JoinRest(text, on, max, i + |on|, k + 1);
        assert ([text[j..i]] + rest)[1..] == rest;
      }
    }
  }

  /** Joining the pieces gives the text back, for every separator and limit. */
  lemma JoinOfPieces(text: string, on: string, max: nat)
    requires on != ""
    ensures Join(Pieces(text, on, max), on) == text
  {
    if max != 1 {
      JoinRest(text, on, Limit(text, max), 0, 0);
    }
  }

  lemma SliceOfSlice(text: string, j: nat, i: nat, n: nat, len: nat)
    requires j <= i <= |text| && n + len <= i - j
    ensures text[j..i][n..n + len] == text[j + n..j + n + len]
  {
    var piece := text[j..i];
    var inner, outer := piece[n..n + len], text[j + n..j + n + len];
    forall m | 0 <= m < len
      ensures inner[m] == outer[m]
    {
      assert inner[m] == piece[n + m] == text[j + (n + m)];
    }
  }

  lemma NoneBefore(text: string, on: string, j: nat, i: nat)
    requires on != "" && j <= i <= |text|
    requires forall n :: j <= n < i ==> !OccursAt(text, on, n)
    ensures !Contains(text[j..i], on)
  {
    forall n | 0 <= n <= i - j - |on|
      ensures !OccursAt(text[j..i], on, n)
    {
      SliceOfSlice(text, j, i, n, |on|);
      assert !OccursAt(text, on, j + n);
    }
  }

  lemma NoneUpToFirst(text: string, on: string, j: nat)
    requires on != "" && j <= |text|
    ensures var i := Find(text, on, j);
            if i == -1 then !Contains(text[j..], on) else !Contains(text[j..i], on)
  {
    FindFirst(text, on, j);
    var i := Find(text, on, j);
    NoneBefore(text, on, j, if i == -1 then |text| else i);
    assert text[j..] == text[j..|text|];
  }

  /** The last of k pieces and then these is cut off only where the limit falls. */
  predicate Limited(r: seq<string>, on: string, max: nat, k: nat) {
    && r != []
    && (forall n :: 0 <= n < |r| - 1 ==> !Contains(r[n], on))
    && (Contains(r[|r| - 1], on) ==> k + |r| == max)
    && (k + 1 < max ==> k + |r| <= max)
  }

  lemma LimitedCons(r: seq<string>, on: string, max: nat, k: nat)
    requires r != [] && !Contains(r[0], on)
    requires k + 2 != max && Limited(r[1..], on, max, k + 1)
    ensures Limited(r, on, max, k)
  {
  }

  lemma {:induction false} RestPieces(text: string, on: string, max: nat, j: nat, k: nat)
    requires on != "" && j <= |text|
    ensures Limited(Rest(text, on, max, j, k), on, max, k)
    decreases |text| - j
  {
    var i := Find(text, on, j);
    NoneUpToFirst(text, on, j);
    RestStep(text, on, max, j, k);
    if i != -1 {
      if k + 2 != max {
        RestPieces(text, on, max, i + |on|, k + 1);
        LimitedCons(Rest(text, on, max, j, k), on, max, k);
      }
    }
  }

  /** Only the last piece may contain the separator, and then only because the limit was
      reached; the limit is never exceeded. */
  lemma PiecesRespectLimit(text: string, on: string, max: nat)
    requires on != ""
    ensures var r := Pieces(text, on, max);
            && r != []
            && (forall n :: 0 <= n < |r| - 1 ==> !Contains(r[n], on))
            && (Contains(r[|r| - 1], on) ==> |r| == if max == 0 then |text| else max)
            && (max > 0 ==> |r| <= max)
  {
    if max != 1 {
      RestPieces(text, on, Limit(text, max), 0, 0);
    }
  }

  lemma WindowOccurs(text: string, on: string, j: nat, end: nat, p: nat)
    requires j <= end <= |text| && j + p + |on| <= end
    ensures OccursAt(text[j..end], on, p) == OccursAt(text, on, j + p)
  {
    SliceOfSlice(text, j, end, p, |on|);
  }

  lemma FindIs(text: string, on: string, i: nat)
    requires OccursAt(text, on, i) && forall p :: 0 <= p < i ==> !OccursAt(text, on, p)
    ensures Find(text, on, 0) == i
  {
    FindFirst(text, on, 0);
  }

  lemma LeftmostPiece(text: string, on: string, j: nat)
    requires on != "" && j <= |text| && Find(text, on, j) != -1
    ensures Find(text[j..Find(text, on, j)] + on, on, 0) == Find(text, on, j) - j
  {
    var i := Find(text, on, j);
    var part := text[j..i] + on;
    FindFirst(text, on, j);
    assert part == text[j..i + |on|];
    WindowOccurs(text, on, j, i + |on|, i - j);
    forall p | 0 <= p < i - j
      ensures !OccursAt(part, on, p)
    {
      WindowOccurs(text, on, j, i + |on|, p);
    }
    FindIs(part, on, i - j);
  }

  lemma {:induction false} RestLeftmost(text: string, on: string, max: nat, j: nat, k: nat, n: nat)
    requires on != "" && j <= |text| && n < |Rest(text, on, max, j, k)| - 1
    ensures Find(Rest(text, on, max, j, k)[n] + on, on, 0) == |Rest(text, on, max, j, k)[n]|
    decreases |text| - j
  {
    var i := Find(text, on, j);
    RestStep(text, on, max, j, k);
    if n == 0 {
      LeftmostPiece(text, on, j);
    } else {
      RestLeftmost(text, on, max, i + |on|, k + 1, n - 1);
    }
  }

  /** Every piece but the last ends where the separator first occurs, overlaps included. */
  lemma PiecesEndLeftmost(text: string, on: string, max: nat, n: nat)
    requires on != "" && n < |Pieces(text, on, max)| - 1
    ensures Find(Pieces(text, on, max)[n] + on, on, 0) == |Pieces(text, on, max)[n]|
  {
    RestLeftmost(text, on, Limit(text, max), 0, 0, n);
  }

  // ----- splitting what was joined -----

  predicate FreeOf(ps: seq<string>, c: char) {
    forall i :: 0 <= i < |ps| ==> c !in ps[i]
  }

  predicate AllEmpty(ps: seq<string>) {
    forall i :: 0 <= i < |ps| ==> ps[i] == ""
  }

  lemma {:induction false} JoinLength(ps: seq<string>, c: char)
    requires ps != []
    ensures |Join(ps, [c])| >= |ps| - 1
    ensures |Join(ps, [c])| == |ps| - 1 <==> AllEmpty(ps)
  {
    if |ps| > 1 {
      JoinLength(ps[1..], c);
      if AllEmpty(ps[1..]) && ps[0] == "" {
        assert forall i :: 0 < i < |ps| ==> ps[i] == ps[1..][i - 1];
      }
      if AllEmpty(ps) {
        assert forall i :: 0 <= i < |ps[1..]| ==> ps[1..][i] == ps[i + 1];
      }
    }
  }

  lemma FindByte(text: string, j: nat, end: nat, c: char)
    requires j <= end <= |text| && c !in text[j..end]
    ensures end == |text| ==> Find(text, [c], j) == -1
    ensures end < |text| && text[end] == c ==> Find(text, [c], j) == end
  {
    FindFirst(text, [c], j);
    forall i | j <= i < end
      ensures !OccursAt(text, [c], i)
    {
      assert text[i] == text[j..end][i - j];
      assert text[i..i + 1] == [text[i]];
    }
    if end < |text| && text[end] == c {
      assert text[end..end + 1] == [c];
      assert OccursAt(text, [c], end);
    }
  }

  /** As long as the limit is not met, cutting at a byte undoes joining with it. */
  lemma {:induction false} RestOfJoin(text: string, j: nat, ps: seq<string>, c: char, max: nat, k: nat)
    requires j <= |text| && text[j..] == Join(ps, [c])
    requires ps != [] && FreeOf(ps, c)
    requires k + |ps| <= max || k + 1 >= max
    ensures Rest(text, [c], max, j, k) == ps
    decreases |ps|
  {
    var end := j + |ps[0]|;
    if |ps| == 1 {
      assert text[j..end] == ps[0];
      FindByte(text, j, end, c);
      RestStep(text, [c], max, j, k);
    } else {
      var rest := Join(ps[1..], [c]);
      TakeApart(text, j, ps[0], c, rest);
      FindByte(text, j, end, c);
      RestStep(text, [c], max, j, k);
      var r := Rest(text, [c], max, j, k);
      if k + 2 == max {
        assert ps[1..] == [ps[1]];
      } else {
        RestOfJoin(text, end + 1, ps[1..], c, max, k + 1);
      }
      assert r == [r[0]] + r[1..] && ps == [ps[0]] + ps[1..];
    }
  }

  lemma TakeApart(text: string, j: nat, piece: string, c: char, rest: string)
    requires j <= |text| && text[j..] == piece + [c] + rest
    ensures var end := j + |piece|;
            end < |text| && text[end] == c && text[j..end] == piece && text[end + 1..] == rest
  {
  }

  /** Splitting at one byte without limit undoes joining pieces free of it, except for three
      or more empty pieces: their text is shorter than their number, and its length is the
      limit that takes the place of 0. */
  lemma PiecesOfJoin(ps: seq<string>, c: char)
    requires ps != [] && FreeOf(ps, c)
    ensures Pieces(Join(ps, [c]), [c], 0) == ps <==> !(|ps| >= 3 && AllEmpty(ps))
  {
    var text := Join(ps, [c]);
    JoinLength(ps, c);
    if |ps| >= 3 && AllEmpty(ps) {
      PiecesAtMost(text, [c], |text|);
    } else {
      RestOfJoin(text, 0, ps, c, |text|, 0);
    }
  }

  lemma PiecesAtMost(text: string, on: string, max: nat)
    requires on != "" && max > 1
    ensures |Rest(text, on, max, 0, 0)| <= max
  {
    RestPieces(text, on, max, 0, 0);
  }
}

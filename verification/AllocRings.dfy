/** Memory words and circular doubly linked lists of chunks. */
module AllocRings {

  type Words = map<int, int>

  /** The fields of all chunks, by chunk address. `foot` is `prev_foot`, the word in front of the header. */
  datatype Mem = Mem(head: Words, foot: Words, fd: Words, bk: Words, child: map<(bool, int), int>, parent: Words,
    index: Words)

  function At(m: Words, a: int): int { if a in m then m[a] else 0 }

  /** The memory after a ring element was taken out. */
  function UnringMem(mem: Mem, x: int): Mem
  {
    var f, b := At(mem.fd, x), At(mem.bk, x);
    mem.(fd := mem.fd[b := f], bk := mem.bk[f := b])
  }

  function Succ(i: nat, n: nat): nat { if i + 1 == n then 0 else i + 1 }

  ghost predicate Distinct(r: seq<int>)
  {
    forall i, j | 0 <= i < j < |r| :: r[i] != r[j]
  }

  /** `r` in the order of the `fd` links, and against the order of the `bk` links. */
  ghost predicate Ring(fd: Words, bk: Words, r: seq<int>)
  {
    && |r| > 0 && Distinct(r)
    && (forall i | 0 <= i < |r| :: At(fd, r[i]) == r[Succ(i, |r|)])
    && (forall i | 0 <= i < |r| :: At(bk, r[Succ(i, |r|)]) == r[i])
  }

  lemma RingFrame(fd: Words, bk: Words, r: seq<int>, fd': Words, bk': Words)
    requires Ring(fd, bk, r) && forall x | x in r :: At(fd', x) == At(fd, x) && At(bk', x) == At(bk, x)
    ensures Ring(fd', bk', r)
  {
  }

  lemma RingAlone(x: int, fd: Words, bk: Words)
    requires At(fd, x) == x && At(bk, x) == x
    ensures Ring(fd, bk, [x])
  {
  }

  lemma RingBack(fd: Words, bk: Words, r: seq<int>, j: nat)
    requires Ring(fd, bk, r) && j < |r|
    ensures At(bk, r[j]) == if j == 0 then r[|r| - 1] else r[j - 1]
    ensures At(fd, r[j]) == if j == |r| - 1 then r[0] else r[j + 1]
  {
    var i := if j == 0 then |r| - 1 else j - 1;
    assert Succ(i, |r|) == j;
  }

  /** A new element right after the first one. */
  lemma RingInsert(fd: Words, bk: Words, r: seq<int>, x: int)
    requires Ring(fd, bk, r) && x !in r
    ensures var f := At(fd, r[0]);
      Ring(fd[r[0] := x][x := f], bk[f := x][x := r[0]], [r[0], x] + r[1..])
  {
    var f := At(fd, r[0]);
    var fd', bk' := fd[r[0] := x][x := f], bk[f := x][x := r[0]];
    var r' := [r[0], x] + r[1..];
    var n := |r'|;
    RingBack(fd, bk, r, 0);
    assert r'[0] == r[0] && r'[1] == x && forall i | 2 <= i < n :: r'[i] == r[i - 1];
    forall i | 0 <= i < n ensures At(fd', r'[i]) == r'[Succ(i, n)] && At(bk', r'[Succ(i, n)]) == r'[i] {
      if i >= 2 { assert At(fd, r[i - 1]) == r[Succ(i - 1, |r|)] && At(bk, r[Succ(i - 1, |r|)]) == r[i - 1]; }
    }
  }

  lemma {:induction false} RingRotate(fd: Words, bk: Words, r: seq<int>, k: nat)
    requires Ring(fd, bk, r) && k < |r|
    ensures Ring(fd, bk, r[k..] + r[..k])
  {
    var r', n := r[k..] + r[..k], |r|;
    forall i | 0 <= i < n ensures At(fd, r'[i]) == r'[Succ(i, n)] && At(bk, r'[Succ(i, n)]) == r'[i] {
      var j := if i + k < n then i + k else i + k - n;
      assert r'[i] == r[j];
      var s := Succ(i, n);
      assert r'[s] == r[Succ(j, n)] by { assert Succ(j, n) == if s + k < n then s + k else s + k - n; }
    }
  }

  /** Taking the first of several elements out. */
  lemma RingRemoveFirst(fd: Words, bk: Words, r: seq<int>)
    requires Ring(fd, bk, r) && |r| > 1
    ensures var f, b := At(fd, r[0]), At(bk, r[0]); Ring(fd[b := f], bk[f := b], r[1..])
  {
    var f, b := At(fd, r[0]), At(bk, r[0]);
    RingBack(fd, bk, r, 0);
    var fd', bk' := fd[b := f], bk[f := b];
    var r', n := r[1..], |r| - 1;
    forall i | 0 <= i < n ensures At(fd', r'[i]) == r'[Succ(i, n)] && At(bk', r'[Succ(i, n)]) == r'[i] {
      assert At(fd, r[i + 1]) == r[Succ(i + 1, |r|)] && At(bk, r[Succ(i + 1, |r|)]) == r[i + 1];
    }
  }

  /** Taking any of several elements out. */
  lemma RingRemove(fd: Words, bk: Words, r: seq<int>, k: nat)
    requires Ring(fd, bk, r) && |r| > 1 && k < |r|
    ensures var f, b := At(fd, r[k]), At(bk, r[k]); Ring(fd[b := f], bk[f := b], r[..k] + r[k + 1..])
  {
    var q := r[k..] + r[..k];
    var f, b := At(fd, r[k]), At(bk, r[k]);
    RingRotate(fd, bk, r, k);
    RingRemoveFirst(fd, bk, q);
    assert q[1..] == r[k + 1..] + r[..k];
    var s := r[k + 1..] + r[..k];
    var m := |r| - 1 - k;
    if m < |s| {
      RingRotate(fd[b := f], bk[f := b], s, m);
      assert s[m..] + s[..m] == r[..k] + r[k + 1..];
    } else {
      assert s == r[..k] + r[k + 1..];
    }
  }

  /** Taking the first element out and starting over at the last one. */
  lemma RingShift(fd: Words, bk: Words, r: seq<int>)
    requires Ring(fd, bk, r) && |r| > 1
    ensures var f, b := At(fd, r[0]), At(bk, r[0]);
      b == r[|r| - 1] && f == r[1] && Ring(fd[b := f], bk[f := b], [b] + r[1..|r| - 1])
  {
    var f, b, q := At(fd, r[0]), At(bk, r[0]), r[1..];
    RingBack(fd, bk, r, 0);
    RingRemoveFirst(fd, bk, r);
    RingRotate(fd[b := f], bk[f := b], q, |q| - 1);
    assert q[|q| - 1..] + q[..|q| - 1] == [b] + r[1..|r| - 1];
  }
}

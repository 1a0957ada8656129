/** Bytes, and what every checksum register of the firmware has in common: a register that is
    stepped bit by bit, and folded byte by byte over a message. Nothing here depends on the
    width of the register. */
module Register {
  type byte = bv8

  const BYTE_TIME: nat := 8

  function Iter<R>(f: R -> R, n: nat, x: R): R
    decreases n
  {
    if n == 0 then x else Iter(f, n - 1, f(x))
  }

  function Fold<R>(step: (R, byte) -> R, c: R, s: seq<byte>): R {
    if s == [] then c else step(Fold(step, c, s[..|s| - 1]), s[|s| - 1])
  }

  ghost predicate Additive<R(!new)>(f: R -> R, add: (R, R) -> R) {
    forall x, y :: f(add(x, y)) == add(f(x), f(y))
  }

  ghost predicate Injective<R(!new)>(f: R -> R) {
    forall x, y :: f(x) == f(y) ==> x == y
  }

  ghost predicate StepInjective<R(!new)>(step: (R, byte) -> R) {
    forall c, d, b :: step(c, b) == step(d, b) ==> c == d
  }

  lemma {:induction false} IterAdditive<R(!new)>(f: R -> R, add: (R, R) -> R, n: nat, x: R, y: R)
    requires Additive(f, add)
    ensures Iter(f, n, add(x, y)) == add(Iter(f, n, x), Iter(f, n, y))
    decreases n
  {
    if n > 0 {
      assert f(add(x, y)) == add(f(x), f(y));
      IterAdditive(f, add, n - 1, f(x), f(y));
    }
  }

  lemma {:induction false} IterInjective<R(!new)>(f: R -> R, n: nat, x: R, y: R)
    requires Injective(f) && Iter(f, n, x) == Iter(f, n, y)
    ensures x == y
    decreases n
  {
    if n > 0 {
      IterInjective(f, n - 1, f(x), f(y));
    }
  }

  lemma IterEight<R>(f: R -> R, x: R)
    ensures Iter(f, BYTE_TIME, x) == f(f(f(f(f(f(f(f(x))))))))
  {
  }

  lemma FoldEight<R>(step: (R, byte) -> R, c: R, s: seq<byte>)
    requires |s| == 8
    ensures Fold(step, c, s)
         == step(step(step(step(step(step(step(step(c, s[0]), s[1]), s[2]), s[3]), s[4]), s[5]), s[6]), s[7])
  {
    assert s[..7][..6] == s[..6] && s[..6][..5] == s[..5] && s[..5][..4] == s[..4];
    assert s[..4][..3] == s[..3] && s[..3][..2] == s[..2] && s[..2][..1] == s[..1] && s[..1][..0] == [];
    FoldLast(step, c, s);
    FoldLast(step, c, s[..7]);
    FoldLast(step, c, s[..6]);
    FoldLast(step, c, s[..5]);
    FoldLast(step, c, s[..4]);
    FoldLast(step, c, s[..3]);
    FoldLast(step, c, s[..2]);
    FoldLast(step, c, s[..1]);
  }

  lemma FoldLast<R>(step: (R, byte) -> R, c: R, s: seq<byte>)
    requires s != []
    ensures Fold(step, c, s) == step(Fold(step, c, s[..|s| - 1]), s[|s| - 1])
  {
  }

  lemma FoldNine<R>(step: (R, byte) -> R, c: R, s: seq<byte>)
    requires |s| == 9
    ensures Fold(step, c, s)
         == step(step(step(step(step(step(step(step(step(c, s[0]), s[1]), s[2]), s[3]), s[4]), s[5]), s[6]), s[7]), s[8])
  {
    FoldLast(step, c, s);
    FoldEight(step, c, s[..8]);
  }

  lemma {:induction false} FoldConcat<R>(step: (R, byte) -> R, c: R, s: seq<byte>, t: seq<byte>)
    ensures Fold(step, c, s + t) == Fold(step, Fold(step, c, s), t)
    decreases |t|
  {
    if t == [] {
      assert s + t == s;
    } else {
      var t' := t[..|t| - 1];
      assert (s + t)[..|s + t| - 1] == s + t';
      FoldConcat(step, c, s, t');
    }
  }

  lemma FoldSnoc<R>(step: (R, byte) -> R, c: R, s: seq<byte>, b: byte)
    ensures Fold(step, c, s + [b]) == step(Fold(step, c, s), b)
  {
    assert (s + [b])[..|s|] == s;
  }

  /** A register that forgets nothing keeps two different states apart for ever. */
  lemma {:induction false} FoldInjective<R(!new)>(step: (R, byte) -> R, c: R, d: R, s: seq<byte>)
    requires StepInjective(step) && Fold(step, c, s) == Fold(step, d, s)
    ensures c == d
    decreases |s|
  {
    if s != [] {
      var s', b := s[..|s| - 1], s[|s| - 1];
      assert step(Fold(step, c, s'), b) == step(Fold(step, d, s'), b);
      FoldInjective(step, c, d, s');
    }
  }

  /** Two messages that differ only in a window have equal folds only if the windows fold
      alike from the common state in front of them. */
  lemma FoldWindow<R(!new)>(step: (R, byte) -> R, c: R, pre: seq<byte>, w: seq<byte>, v: seq<byte>, post: seq<byte>)
    requires StepInjective(step)
    requires Fold(step, c, pre + w + post) == Fold(step, c, pre + v + post)
    ensures Fold(step, Fold(step, c, pre), w) == Fold(step, Fold(step, c, pre), v)
  {
    FoldConcat(step, c, pre + w, post);
    FoldConcat(step, c, pre + v, post);
    FoldConcat(step, c, pre, w);
    FoldConcat(step, c, pre, v);
    FoldInjective(step, Fold(step, c, pre + w), Fold(step, c, pre + v), post);
  }

  lemma {:induction false} FoldSame<R(!new)>(f: (R, byte) -> R, g: (R, byte) -> R, c: R, s: seq<byte>)
    requires forall x, b :: f(x, b) == g(x, b)
    ensures Fold(f, c, s) == Fold(g, c, s)
    decreases |s|
  {
    if s != [] {
      FoldSame(f, g, c, s[..|s| - 1]);
    }
  }

  lemma FoldSlice<R>(step: (R, byte) -> R, c: R, buf: array<byte>, i: nat, j: nat, k: nat)
    requires i <= j <= k <= buf.Length
    ensures Fold(step, c, buf[i..k]) == Fold(step, Fold(step, c, buf[i..j]), buf[j..k])
  {
    FoldConcat(step, c, buf[i..j], buf[j..k]);
    assert buf[i..k] == buf[i..j] + buf[j..k];
  }

  /** The byte loop: one step for each of len bytes. */
  method RunByBytes<R>(step: (R, byte) -> R, c: R, buf: array<byte>, from: nat, len: nat) returns (crc: R)
    requires from + len <= buf.Length
    ensures crc == Fold(step, c, buf[from..from + len])
  {
    crc := c;
    var p, n := from, len;
    while n > 0
      invariant 0 <= n && from <= p && p + n == from + len
      invariant crc == Fold(step, c, buf[from..p])
    {
      FoldSnoc(step, c, buf[from..p], buf[p]);
      assert buf[from..p + 1] == buf[from..p] + [buf[p]];
      n := n - 1;
      crc := step(crc, buf[p]);
      p := p + 1;
    }
  }

  // The macros DO2, DO4 and DO8: two, four and eight bytes from position p on.
  method Do2<R>(step: (R, byte) -> R, c: R, buf: array<byte>, p: nat) returns (crc: R)
    requires p + 2 <= buf.Length
    ensures crc == Fold(step, c, buf[p..p + 2])
  {
    crc := step(c, buf[p]);
    crc := step(crc, buf[p + 1]);
    FoldSnoc(step, c, [], buf[p]);
    FoldSnoc(step, c, [buf[p]], buf[p + 1]);
    assert [] + [buf[p]] == [buf[p]];
    assert buf[p..p + 2] == [buf[p]] + [buf[p + 1]];
  }

  method Do4<R>(step: (R, byte) -> R, c: R, buf: array<byte>, p: nat) returns (crc: R)
    requires p + 4 <= buf.Length
    ensures crc == Fold(step, c, buf[p..p + 4])
  {
    crc := Do2(step, c, buf, p);
    crc := Do2(step, crc, buf, p + 2);
    FoldSlice(step, c, buf, p, p + 2, p + 4);
  }

  method Do8<R>(step: (R, byte) -> R, c: R, buf: array<byte>, p: nat) returns (crc: R)
    requires p + 8 <= buf.Length
    ensures crc == Fold(step, c, buf[p..p + 8])
  {
    crc := Do4(step, c, buf, p);
    crc := Do4(step, crc, buf, p + 4);
    FoldSlice(step, c, buf, p, p + 4, p + 8);
  }

  /** The unrolled loop: eight bytes at a time while there are eight, then one at a time. */
  method RunByEights<R>(step: (R, byte) -> R, c: R, buf: array<byte>, from: nat, len0: nat) returns (crc: R)
    requires from + len0 <= buf.Length
    ensures crc == Fold(step, c, buf[from..from + len0])
  {
    crc := c;
    var p: nat, len: nat := from, len0;
    assert buf[from..from] == [];
    while len >= 8
      invariant from <= p <= buf.Length && p + len == from + len0
      invariant crc == Fold(step, c, buf[from..p])
    {
      var next := Do8(step, crc, buf, p);
      FoldSlice(step, c, buf, from, p, p + 8);
      crc, p, len := next, p + 8, len - 8;
    }
    var last := RunByBytes(step, crc, buf, p, len);
    FoldSlice(step, c, buf, from, p, from + len0);
    crc := last;
  }

  /** A checksum that is flipped before and after the fold. */
  function Flipped<R>(flip: R -> R, step: (R, byte) -> R, c: R, s: seq<byte>): R {
    flip(Fold(step, flip(c), s))
  }

  /** A checksum can be taken piece by piece. */
  lemma FlippedConcat<R(!new)>(flip: R -> R, step: (R, byte) -> R, c: R, s: seq<byte>, t: seq<byte>)
    requires forall x :: flip(flip(x)) == x
    ensures Flipped(flip, step, Flipped(flip, step, c, s), t) == Flipped(flip, step, c, s + t)
  {
    FoldConcat(step, flip(c), s, t);
  }

  lemma FlippedSlice<R(!new)>(flip: R -> R, step: (R, byte) -> R, c: R, buf: array<byte>, i: nat, j: nat, k: nat)
    requires i <= j <= k <= buf.Length
    requires forall x :: flip(flip(x)) == x
    ensures Flipped(flip, step, Flipped(flip, step, c, buf[i..j]), buf[j..k]) == Flipped(flip, step, c, buf[i..k])
  {
    FlippedConcat(flip, step, c, buf[i..j], buf[j..k]);
    assert buf[i..k] == buf[i..j] + buf[j..k];
  }

  method RunFlipped<R>(flip: R -> R, step: (R, byte) -> R, c: R, buf: array<byte>, from: nat, len: nat) returns (crc: R)
    requires from + len <= buf.Length
    ensures crc == Flipped(flip, step, c, buf[from..from + len])
  {
    crc := flip(c);
    crc := RunByEights(step, crc, buf, from, len);
    crc := flip(crc);
  }

  /** The chunked loop: the chunk size does not show in the result. */
  method RunInChunks<R(!new)>(flip: R -> R, step: (R, byte) -> R, c: R, buf: array<byte>, from: nat, len: nat, chunkSize: nat)
    returns (crc: R)
    requires from + len <= buf.Length && chunkSize > 0
    requires forall x :: flip(flip(x)) == x
    ensures crc == Flipped(flip, step, c, buf[from..from + len])
  {
    crc := c;
    var curr, end := from, from + len;
    while curr < end
      invariant from <= curr <= end
      invariant crc == Flipped(flip, step, c, buf[from..curr])
    {
      var chunk := end - curr;
      if chunk > chunkSize {
        chunk := chunkSize;
      }
      crc := RunFlipped(flip, step, crc, buf, curr, chunk);
      FlippedSlice(flip, step, c, buf, from, curr, curr + chunk);
      curr := curr + chunk;
    }
  }
}

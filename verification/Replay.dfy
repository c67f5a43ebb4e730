/** Replaying committed write sets in version order, on words that start at zero. */
module Replay {
  import opened Protocol

  /** The value of word `x` after every commit with version at most `v`. */
  function Val(h: map<int, Commit>, v: int, x: Addr): Word
    decreases if v < 0 then 0 else v
  {
    if v <= 0 then 0
    else if v in h && x in h[v].writes then h[v].writes[x]
    else Val(h, v - 1, x)
  }

  /** The whole memory after every commit with version at most `v`. */
  function MemAt(h: map<int, Commit>, v: int): map<Addr, Word>
    decreases if v < 0 then 0 else v
  {
    if v <= 0 then map[]
    else if v in h then MemAt(h, v - 1) + h[v].writes
    else MemAt(h, v - 1)
  }

  /** No commit with version in `(a, b]` writes `x`. */
  predicate NotWritten(h: map<int, Commit>, a: int, b: int, x: Addr) {
    forall u :: a < u <= b && u in h ==> x !in h[u].writes
  }

  lemma {:induction false} ValIsMemAt(h: map<int, Commit>, v: int, x: Addr)
    ensures Val(h, v, x) == Get(MemAt(h, v), x)
    decreases if v < 0 then 0 else v
  {
    if v > 0 {
      ValIsMemAt(h, v - 1, x);
    }
  }

  /** A stretch of versions that does not write a word does not change it. */
  lemma {:induction false} ValSkips(h: map<int, Commit>, a: int, b: int, x: Addr)
    requires a <= b && NotWritten(h, a, b, x)
    ensures Val(h, a, x) == Val(h, b, x)
    decreases b - a
  {
    if a < b {
      ValSkips(h, a, b - 1, x);
    }
  }

  /** A new commit is invisible below its version and on the words it does not write. */
  lemma {:induction false} ValExtends(h: map<int, Commit>, w: int, e: Commit, v: int, x: Addr)
    requires v < w || (x !in e.writes && w !in h)
    ensures Val(h[w := e], v, x) == Val(h, v, x)
    decreases if v < 0 then 0 else v
  {
    if v > 0 {
      ValExtends(h, w, e, v - 1, x);
    }
  }

  /** The replayed value is zero or was written by a commit of the replayed stretch. */
  lemma {:induction false} ValWriter(h: map<int, Commit>, v: int, x: Addr) returns (u: int)
    ensures 0 <= u && (u <= v || u == 0)
    ensures NotWritten(h, u, v, x)
    ensures if u == 0 then Val(h, v, x) == 0
            else u in h && x in h[u].writes && Val(h, v, x) == h[u].writes[x]
    decreases if v < 0 then 0 else v
  {
    if v <= 0 {
      u := 0;
    } else if v in h && x in h[v].writes {
      u := v;
    } else {
      u := ValWriter(h, v - 1, x);
    }
  }
}

/** Lists of copies carried out one after the other in the file tree. */
module TreeMoves {
  import opened Common
  import opened Manifests
  import opened FileTree

  datatype Move = Move(src: Path, dst: Path)

  /** Both trees hold the same at and below `p`. */
  ghost predicate SameBelow(t: Tree, u: Tree, p: Path) {
    forall r :: Get(u, p + r) == Get(t, p + r)
  }

  lemma FromBelow(t: Tree, u: Tree, p: Path)
    requires SameBelow(t, u, p)
    ensures forall q :: p <= q ==> Get(u, q) == Get(t, q)
  {
    forall q | p <= q ensures Get(u, q) == Get(t, q) {
      Beneath(p, q);
      assert Get(u, p + q[|p|..]) == Get(t, p + q[|p|..]);
    }
  }

  /** Only places at or below `p` may differ. */
  ghost predicate OnlyBelow(u: Tree, v: Tree, p: Path) {
    forall q :: !(p <= q) ==> Get(v, q) == Get(u, q)
  }

  type Op = (Tree, Move) -> Option<Tree>

  /** The operation for each move in turn; None as soon as one fails. */
  function InTurn(op: Op, t: Tree, ms: seq<Move>): Option<Tree> {
    if ms == [] then Some(t)
    else match InTurn(op, t, ms[..|ms| - 1])
         case None => None
         case Some(u) => op(u, ms[|ms| - 1])
  }

  function ReplaceOne(t: Tree, m: Move): Option<Tree> { ReplacePath(t, m.src, m.dst) }

  /** `copyPath` if the source exists. */
  function SaveOne(t: Tree, m: Move): Option<Tree> {
    if m.src !in t then Some(t) else CopyPath(t, m.src, m.dst)
  }

  function ReplaceAll(t: Tree, ms: seq<Move>): Option<Tree> { InTurn(ReplaceOne, t, ms) }

  function SaveAll(t: Tree, ms: seq<Move>): Option<Tree> { InTurn(SaveOne, t, ms) }

  lemma InTurnStep(op: Op, t: Tree, ms: seq<Move>, m: Move)
    ensures InTurn(op, t, ms + [m]) == match InTurn(op, t, ms) case None => None case Some(u) => op(u, m)
  {
    assert (ms + [m])[..|ms|] == ms;
  }

  lemma {:induction false} FailureStays(op: Op, t: Tree, ms: seq<Move>, more: seq<Move>)
    requires InTurn(op, t, ms).None?
    ensures InTurn(op, t, ms + more).None?
  {
    if more == [] {
      assert ms + more == ms;
    } else {
      var init, last := more[..|more| - 1], more[|more| - 1];
      FailureStays(op, t, ms, init);
      InTurnStep(op, t, ms + init, last);
      assert ms + more == ms + init + [last];
    }
  }

  // ---------------------------------------------------------------- replacing

  /** No source overlaps a destination. */
  ghost predicate Apart(ms: seq<Move>) {
    && (forall i :: 0 <= i < |ms| ==> ms[i].dst != [])
    && forall i, j :: 0 <= i < |ms| && 0 <= j < |ms| ==> !Overlap(ms[i].src, ms[j].dst)
  }

  /** The node at `q` once the moves are done: the last move at or above it decides. */
  function After(t: Tree, ms: seq<Move>, q: Path): Option<Node> {
    if ms == [] then Get(t, q)
    else
      var last := ms[|ms| - 1];
      if last.dst <= q then Get(t, last.src + q[|last.dst|..])
      else if q <= last.dst then Some(Dir)
      else After(t, ms[..|ms| - 1], q)
  }

  lemma {:induction false} AfterElsewhere(t: Tree, ms: seq<Move>, q: Path)
    requires forall i :: 0 <= i < |ms| ==> !Overlap(q, ms[i].dst)
    ensures After(t, ms, q) == Get(t, q)
  {
    if ms != [] {
      assert !Overlap(q, ms[|ms| - 1].dst);
      AfterElsewhere(t, ms[..|ms| - 1], q);
    }
  }

  lemma {:induction false} ReplaceAllMeaning(t: Tree, ms: seq<Move>)
    requires FileTree.WellFormed(t) && Apart(ms) && forall i :: 0 <= i < |ms| ==> ms[i].src in t
    ensures ReplaceAll(t, ms).Some? ==>
              && FileTree.WellFormed(ReplaceAll(t, ms).value)
              && forall q :: Get(ReplaceAll(t, ms).value, q) == After(t, ms, q)
  {
    if ms != [] {
      var init, last := ms[..|ms| - 1], ms[|ms| - 1];
      ReplaceAllMeaning(t, init);
      if ReplaceAll(t, init).Some? {
        var u := ReplaceAll(t, init).value;
        forall r ensures Get(u, last.src + r) == Get(t, last.src + r) {
          forall i | 0 <= i < |init| ensures !Overlap(last.src + r, init[i].dst) {
            ApartBelow(last.src, r, ms[i].dst);
          }
          AfterElsewhere(t, init, last.src + r);
        }
        assert last.src + [] == last.src;
        assert Get(u, last.src + []) == Get(t, last.src + []);
        ReplacePathMeaning(u, last.src, last.dst);
      }
    }
  }

  // ---------------------------------------------------------------- saving into a fresh directory

  /** Destinations lie below a fresh directory, apart from each other; sources are apart from it. */
  ghost predicate Fresh(t: Tree, home: Path, ms: seq<Move>) {
    && (forall i :: 0 <= i < |ms| ==> home <= ms[i].dst && ms[i].dst != home && !Overlap(ms[i].src, home))
    && (forall i, j :: 0 <= i < j < |ms| ==> !Overlap(ms[i].dst, ms[j].dst))
    && (forall i :: 0 <= i < |ms| ==> NothingAt(t, ms[i].dst))
  }

  function Saved(t: Tree, ms: seq<Move>, q: Path): Option<Node> {
    if ms == [] then Get(t, q)
    else
      var last := ms[|ms| - 1];
      if last.src !in t then Saved(t, ms[..|ms| - 1], q)
      else if last.dst <= q then Get(t, last.src + q[|last.dst|..])
      else if q <= last.dst then Some(Dir)
      else Saved(t, ms[..|ms| - 1], q)
  }

  lemma {:induction false} SavedElsewhere(t: Tree, ms: seq<Move>, q: Path)
    requires forall i :: 0 <= i < |ms| ==> !Overlap(q, ms[i].dst)
    ensures Saved(t, ms, q) == Get(t, q)
  {
    if ms != [] {
      assert !Overlap(q, ms[|ms| - 1].dst);
      SavedElsewhere(t, ms[..|ms| - 1], q);
    }
  }

  /** A saved source stands complete at its destination. */
  lemma {:induction false} SavedAt(t: Tree, ms: seq<Move>, i: nat, r: Path)
    requires i < |ms| && ms[i].src in t && forall j, k :: 0 <= j < k < |ms| ==> !Overlap(ms[j].dst, ms[k].dst)
    ensures Saved(t, ms, ms[i].dst + r) == Get(t, ms[i].src + r)
  {
    var last := ms[|ms| - 1];
    BeneathOf(ms[i].dst, r);
    if i < |ms| - 1 {
      ApartBelow(ms[i].dst, r, last.dst);
      SavedAt(t, ms[..|ms| - 1], i, r);
    }
  }

  lemma FreshDestination(t: Tree, home: Path, ms: seq<Move>, u: Tree)
    requires ms != [] && Fresh(t, home, ms) && forall q :: Get(u, q) == Saved(t, ms[..|ms| - 1], q)
    ensures NothingAt(u, ms[|ms| - 1].dst)
    ensures SameBelow(t, u, ms[|ms| - 1].src)
    ensures !(ms[|ms| - 1].src <= ms[|ms| - 1].dst)
  {
    var init, last := ms[..|ms| - 1], ms[|ms| - 1];
    forall q | last.dst <= q ensures q !in u {
      Beneath(last.dst, q);
      forall i | 0 <= i < |init| ensures !Overlap(q, init[i].dst) {
        assert !Overlap(ms[i].dst, last.dst);
        ApartBelow(last.dst, q[|last.dst|..], init[i].dst);
      }
      SavedElsewhere(t, init, q);
      assert Get(u, q) == Get(t, q);
    }
    forall r ensures Get(u, last.src + r) == Get(t, last.src + r) {
      forall i | 0 <= i < |init| ensures !Overlap(last.src + r, init[i].dst) {
        ApartFromBelow(last.src + r, home, init[i].dst, last.src, r);
      }
      SavedElsewhere(t, init, last.src + r);
    }
    ApartFromBelow(last.src + [], home, last.dst, last.src, []);
    assert last.src + [] == last.src;
  }

  /** What is apart from a directory is apart from everything in it. */
  lemma ApartFromBelow(q: Path, home: Path, d: Path, s: Path, r: Path)
    requires q == s + r && !Overlap(s, home) && home <= d
    ensures !Overlap(q, d)
  {
    ApartBelow(s, r, home);
    Beneath(home, d);
    ApartBelow(home, d[|home|..], q);
  }

  lemma {:induction false} SaveAllMeaning(t: Tree, home: Path, ms: seq<Move>)
    requires FileTree.WellFormed(t) && Fresh(t, home, ms)
    ensures SaveAll(t, ms).Some? ==>
              && FileTree.WellFormed(SaveAll(t, ms).value)
              && forall q :: Get(SaveAll(t, ms).value, q) == Saved(t, ms, q)
  {
    if ms != [] {
      var init, last := ms[..|ms| - 1], ms[|ms| - 1];
      SaveAllMeaning(t, home, init);
      if SaveAll(t, init).Some? {
        var u := SaveAll(t, init).value;
        FreshDestination(t, home, ms, u);
        assert last.src + [] == last.src;
        assert Get(u, last.src + []) == Get(t, last.src + []);
        if last.src in u {
          CopyPathMeaning(u, last.src, last.dst);
        }
      }
    }
  }
}

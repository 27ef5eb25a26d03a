/** The undo/redo history of the layered canvas (canvas/Canvas.jsx) as pure
    step functions on a session: the two snapshot stacks and the layers on
    screen. Restoring a snapshot is taken to be synchronous and exact. */
module History {
  import opened Js

  /** What save() and the history record: both layers' bitmaps. */
  datatype Snapshot = Snapshot(background: seq<Byte>, foreground: seq<Byte>)

  /** MAX_HISTORY */
  const MaxHistory: nat := 50

  /** The two stacks, top of stack last. */
  datatype Stacks = Stacks(undo: seq<Snapshot>, redo: seq<Snapshot>)

  /** The stacks together with the layers on screen. */
  datatype Session = Session(stacks: Stacks, layers: Snapshot)

  /** What onHistoryChange receives. */
  datatype Status = Status(canUndo: bool, canRedo: bool)

  /** The stacks never hold more than MaxHistory snapshots between them. */
  predicate Bounded(s: Stacks) {
    |s.undo| + |s.redo| <= MaxHistory
  }

  /** The last n elements of xs, or all of them when there are fewer. */
  function Latest<T>(xs: seq<T>, n: nat): (r: seq<T>)
    ensures |r| == if |xs| < n then |xs| else n
    ensures r == xs[|xs| - |r|..]
  {
    if |xs| <= n then xs else xs[|xs| - n..]
  }

  /** push, then shift when the stack has grown past MaxHistory. */
  function PushBounded(undo: seq<Snapshot>, s: Snapshot): (r: seq<Snapshot>)
    ensures |undo| <= MaxHistory ==> r == Latest(undo + [s], MaxHistory)
    ensures r != [] && r[|r| - 1] == s
  {
    var pushed := undo + [s];
    if |pushed| > MaxHistory then pushed[1..] else pushed
  }

  /** Pushing several snapshots one by one keeps the MaxHistory latest. */
  lemma {:induction false} PushAllKeepsLatest(undo: seq<Snapshot>, ss: seq<Snapshot>)
    requires |undo| <= MaxHistory
    ensures PushAll(undo, ss) == Latest(undo + ss, MaxHistory)
    decreases |ss|
  {
    if ss == [] {
      assert undo + ss == undo;
    } else {
      var undo' := PushBounded(undo, ss[0]);
      PushAllKeepsLatest(undo', ss[1..]);
      LatestTwice(undo + [ss[0]], ss[1..]);
      AppendFirst(undo, ss);
    }
  }

  /** Splitting off the first element of ys and appending it piecewise. */
  lemma AppendFirst<T>(xs: seq<T>, ys: seq<T>)
    requires ys != []
    ensures xs + [ys[0]] + ys[1..] == xs + ys
  {
    assert ys == [ys[0]] + ys[1..];
  }

  /** Cutting to the latest MaxHistory early or late gives the same result. */
  lemma LatestTwice<T>(xs: seq<T>, ys: seq<T>)
    ensures Latest(Latest(xs, MaxHistory) + ys, MaxHistory) == Latest(xs + ys, MaxHistory)
  {
    var l := Latest(xs, MaxHistory);
    var k := |xs| - |l|;
    assert l + ys == (xs + ys)[k..];
    LatestOfSuffix(xs + ys, k);
  }

  /** Dropping only elements older than the latest MaxHistory does not change
      the latest MaxHistory. */
  lemma LatestOfSuffix<T>(xs: seq<T>, k: nat)
    requires k <= |xs| && (k == 0 || |xs| - k >= MaxHistory)
    ensures Latest(xs[k..], MaxHistory) == Latest(xs, MaxHistory)
  {
    if k == 0 {
      assert xs[0..] == xs;
    }
  }

  /** The undo stack after saving each of ss in turn. */
  function PushAll(undo: seq<Snapshot>, ss: seq<Snapshot>): seq<Snapshot>
    decreases |ss|
  {
    if ss == [] then undo else PushAll(PushBounded(undo, ss[0]), ss[1..])
  }

  /** saveStateToUndo: the layers on screen go on the undo stack (evicting
      the oldest past MaxHistory) and the redo stack is emptied. */
  function Save(s: Session): (r: Session)
    ensures Bounded(s.stacks) ==> Bounded(r.stacks)
    ensures r.layers == s.layers && r.stacks.redo == [] && r.stacks.undo != []
    ensures r.stacks.undo[|r.stacks.undo| - 1] == s.layers
    ensures |s.stacks.undo| <= MaxHistory ==> r.stacks.undo == Latest(s.stacks.undo + [s.layers], MaxHistory)
  {
    Session(Stacks(PushBounded(s.stacks.undo, s.layers), []), s.layers)
  }

  /** undo: nothing with an empty undo stack; otherwise the layers on screen
      go on the redo stack and the top of the undo stack is restored. */
  function Undo(s: Session): (r: Session)
    ensures Bounded(s.stacks) ==> Bounded(r.stacks)
    ensures s.stacks.undo == [] ==> r == s
    ensures s.stacks.undo != [] ==>
      && r.layers == s.stacks.undo[|s.stacks.undo| - 1]
      && r.stacks.undo + [r.layers] == s.stacks.undo
      && r.stacks.redo == s.stacks.redo + [s.layers]
  {
    if s.stacks.undo == [] then s
    else
      var n := |s.stacks.undo|;
      Session(Stacks(s.stacks.undo[..n - 1], s.stacks.redo + [s.layers]), s.stacks.undo[n - 1])
  }

  /** redo: the mirror image of undo. */
  function Redo(s: Session): (r: Session)
    ensures Bounded(s.stacks) ==> Bounded(r.stacks)
    ensures s.stacks.redo == [] ==> r == s
    ensures s.stacks.redo != [] ==>
      && r.layers == s.stacks.redo[|s.stacks.redo| - 1]
      && r.stacks.redo + [r.layers] == s.stacks.redo
      && r.stacks.undo == s.stacks.undo + [s.layers]
  {
    if s.stacks.redo == [] then s
    else
      var n := |s.stacks.redo|;
      Session(Stacks(s.stacks.undo + [s.layers], s.stacks.redo[..n - 1]), s.stacks.redo[n - 1])
  }

  /** Undo followed by redo restores the layers and both stacks. */
  lemma UndoThenRedo(s: Session)
    requires s.stacks.undo != []
    ensures Redo(Undo(s)) == s
  {
    var n := |s.stacks.undo|;
    assert s.stacks.undo[..n - 1] + [s.stacks.undo[n - 1]] == s.stacks.undo;
    assert (s.stacks.redo + [s.layers])[..|s.stacks.redo|] == s.stacks.redo;
  }

  /** Redo followed by undo restores the layers and both stacks. */
  lemma RedoThenUndo(s: Session)
    requires s.stacks.redo != []
    ensures Undo(Redo(s)) == s
  {
    var n := |s.stacks.redo|;
    assert s.stacks.redo[..n - 1] + [s.stacks.redo[n - 1]] == s.stacks.redo;
    assert (s.stacks.undo + [s.layers])[..|s.stacks.undo|] == s.stacks.undo;
  }

  /** The status reported after every change of the stacks. */
  function StatusOf(s: Stacks): (st: Status)
    ensures st.canUndo <==> s.undo != []
    ensures st.canRedo <==> s.redo != []
  {
    Status(|s.undo| > 0, |s.redo| > 0)
  }
}

/** The cell loop of a benchmark (`run_extract` in `src/benchmark.rs`): every model
    and run once, resumed by the manifest's cells. */
module Matrix {
  import opened Common

  type Id = seq<byte>

  datatype Outcome = Complete | Failed | Interrupted

  datatype Cell = Cell(id: Id, outcome: Outcome)

  predicate Concluded(c: Cell) {
    c.outcome == Complete || c.outcome == Failed
  }

  predicate Done(cells: seq<Cell>, id: Id) {
    exists i | 0 <= i < |cells| :: cells[i].id == id && Concluded(cells[i])
  }

  /** No two cells of one id. */
  ghost predicate OncePerId(cells: seq<Cell>) {
    forall i, j | 0 <= i < j < |cells| :: cells[i].id != cells[j].id
  }

  /** The cells of other ids. */
  function Others(cells: seq<Cell>, id: Id): seq<Cell> {
    if cells == [] then []
    else
      var init, last := Others(cells[..|cells| - 1], id), cells[|cells| - 1];
      if last.id == id then init else init + [last]
  }

  lemma {:induction false} OthersElements(cells: seq<Cell>, id: Id)
    ensures forall c :: c in Others(cells, id) <==> c in cells && c.id != id
    ensures OncePerId(cells) ==> OncePerId(Others(cells, id))
  {
    if cells != [] {
      var n := |cells| - 1;
      OthersElements(cells[..n], id);
      assert cells == cells[..n] + [cells[n]];
      if OncePerId(cells) {
        assert forall c | c in cells[..n] :: c.id != cells[n].id;
      }
    }
  }

  /** Replacing a cell that had not concluded. */
  lemma Replaced(cells: seq<Cell>, c: Cell)
    requires !Done(cells, c.id)
    ensures var next := Others(cells, c.id) + [c];
      && (OncePerId(cells) ==> OncePerId(next))
      && (forall o | o in cells && Concluded(o) :: o in next)
      && (forall id | Done(cells, id) :: Done(next, id))
      && (Concluded(c) ==> Done(next, c.id))
  {
    OthersElements(cells, c.id);
    var next := Others(cells, c.id) + [c];
    assert next[|next| - 1] == c;
    forall o | o in cells && Concluded(o) ensures o in next {
      var i :| 0 <= i < |cells| && cells[i] == o;
      assert cells[i].id != c.id;
    }
    forall id | Done(cells, id) ensures Done(next, id) {
      var i :| 0 <= i < |cells| && cells[i].id == id && Concluded(cells[i]);
      assert cells[i] in next;
    }
  }

  // ------------------------------------------------------------------ what a loop does

  /** Everything that happens around the cells: what each comes to (none when the
      harness gives up on it), whether a stop was asked for before it, and whether the
      manifest could be written after it. */
  datatype World = World(run: nat -> Option<Outcome>, stopped: nat -> bool, saved: nat -> bool)

  /** The cell is one to run: not concluded before, and the first of its id. */
  ghost predicate Due(ids: seq<Id>, given: seq<Cell>, k: nat)
    requires k < |ids|
  {
    !Done(given, ids[k]) && forall j | 0 <= j < k :: ids[j] != ids[k]
  }

  /** The loop goes on past the cell. */
  ghost predicate Passes(ids: seq<Id>, given: seq<Cell>, w: World, k: nat)
    requires k < |ids|
  {
    !w.stopped(k) && (Due(ids, given, k) ==> w.run(k).Some? && w.run(k).value != Interrupted && w.saved(k))
  }

  /** The loop comes to the cell. */
  ghost predicate Reached(ids: seq<Id>, given: seq<Cell>, w: World, k: nat)
    requires k <= |ids|
  {
    forall j | 0 <= j < k :: Passes(ids, given, w, j)
  }

  /** The cell ran, and what it came to was recorded. */
  ghost predicate Recorded(ids: seq<Id>, given: seq<Cell>, w: World, k: nat)
    requires k < |ids|
  {
    Reached(ids, given, w, k) && !w.stopped(k) && Due(ids, given, k) && w.run(k).Some? && w.saved(k)
  }

  /** The loop is stopped at the cell, or the cell was interrupted. */
  ghost predicate Interrupts(ids: seq<Id>, given: seq<Cell>, w: World, k: nat)
    requires k < |ids|
  {
    w.stopped(k) || (Due(ids, given, k) && w.run(k) == Some(Interrupted) && w.saved(k))
  }

  /** The harness gives up on the cell, or its record cannot be written. */
  ghost predicate Breaks(ids: seq<Id>, given: seq<Cell>, w: World, k: nat)
    requires k < |ids|
  {
    !w.stopped(k) && Due(ids, given, k) && (w.run(k).None? || !w.saved(k))
  }

  lemma ReachedFurther(ids: seq<Id>, given: seq<Cell>, w: World, k: nat)
    requires k < |ids|
    ensures Reached(ids, given, w, k + 1) <==> Reached(ids, given, w, k) && Passes(ids, given, w, k)
  {
    hide Passes;
  }

  /** What the manifest holds once the loop came to cell `k`: each recorded outcome, and
      what was given for every other id. */
  ghost predicate Holds(disk: seq<Cell>, ids: seq<Id>, given: seq<Cell>, w: World, k: nat)
    requires k <= |ids|
  {
    && (forall j | 0 <= j < k && Recorded(ids, given, w, j) :: Cell(ids[j], w.run(j).value) in disk)
    && (forall c | c in disk :: c in given || exists j :: 0 <= j < k && Recorded(ids, given, w, j) && c == Cell(ids[j], w.run(j).value))
    && (forall c | c in given :: c in disk || exists j :: 0 <= j < k && Recorded(ids, given, w, j) && c.id == ids[j])
  }

  lemma {:induction false} HoldsSame(disk: seq<Cell>, ids: seq<Id>, given: seq<Cell>, w: World, k: nat)
    requires k < |ids| && Holds(disk, ids, given, w, k) && !Recorded(ids, given, w, k)
    ensures Holds(disk, ids, given, w, k + 1)
  {
    hide Recorded;
  }

  /** Recording one more cell, which no cell before shares its id with. */
  lemma {:induction false} HoldsMore(disk: seq<Cell>, ids: seq<Id>, given: seq<Cell>, w: World, k: nat)
    requires k < |ids| && Holds(disk, ids, given, w, k) && Recorded(ids, given, w, k)
    ensures Holds(Others(disk, ids[k]) + [Cell(ids[k], w.run(k).value)], ids, given, w, k + 1)
  {
    var c := Cell(ids[k], w.run(k).value);
    var next := Others(disk, ids[k]) + [c];
    assert forall j | 0 <= j < k :: ids[j] != ids[k];
    hide Recorded, Others;
    OthersElements(disk, ids[k]);
    assert next[|next| - 1] == c;
    assert forall o :: o in next <==> (o in disk && o.id != ids[k]) || o == c;
  }

  /** Runs every cell the manifest does not hold concluded; `disk` is the manifest as
      last written, `ran` the cells that ran and `end` the cell the loop ended at. */
  method RunMatrix(ids: seq<Id>, given: seq<Cell>, w: World)
    returns (exit: int, disk: seq<Cell>, finished: bool, ran: seq<nat>)
    ensures OncePerId(given) ==> OncePerId(disk)
    ensures forall c | c in given && Concluded(c) :: c in disk
    ensures Holds(disk, ids, given, w, |ids|)
    ensures forall k :: k in ran <==> 0 <= k < |ids| && Reached(ids, given, w, k) && !w.stopped(k) && Due(ids, given, k)
    ensures forall a, b | 0 <= a < b < |ran| :: ran[a] < ran[b]
    ensures exit == 130 <==> exists k :: 0 <= k < |ids| && Reached(ids, given, w, k) && Interrupts(ids, given, w, k)
    ensures exit == 1 <==>
              ((exists k :: 0 <= k < |ids| && Reached(ids, given, w, k) && Breaks(ids, given, w, k))
               || (Reached(ids, given, w, |ids|) && !w.saved(|ids|)))
    ensures exit == 0 <==> finished
    ensures finished <==> Reached(ids, given, w, |ids|) && w.saved(|ids|)
    ensures finished ==> forall k | 0 <= k < |ids| :: Done(disk, ids[k])
  {
    hide Done, Due, Others, OncePerId, Reached, Holds;
    disk, ran := given, [];
    Start(ids, given, w);
    for k := 0 to |ids|
      invariant OncePerId(given) ==> OncePerId(disk)
      invariant forall c | c in given && Concluded(c) :: c in disk
      invariant forall id | Done(given, id) :: Done(disk, id)
      invariant Reached(ids, given, w, k) && Holds(disk, ids, given, w, k)
      invariant forall j :: j in ran <==> 0 <= j < k && !w.stopped(j) && Due(ids, given, j)
      invariant forall a | 0 <= a < |ran| :: ran[a] < k
      invariant forall a, b | 0 <= a < b < |ran| :: ran[a] < ran[b]
      invariant forall j | 0 <= j < k :: Done(disk, ids[j])
    {
      ReachedFurther(ids, given, w, k);
      DueExactly(disk, ids, given, w, k);
      ReachedBefore(ids, given, w, k);
      if w.stopped(k) {
        EndsAt(ids, given, w, k);
        HoldsToEnd(disk, ids, given, w, k);
        return 130, disk, false, ran;
      }
      if Done(disk, ids[k]) {
        HoldsSame(disk, ids, given, w, k);
        continue;
      }
      ran := ran + [k];
      match w.run(k) {
        case None =>
          EndsAt(ids, given, w, k);
          HoldsToEnd(disk, ids, given, w, k);
          return 1, disk, false, ran;
        case Some(outcome) =>
          if !w.saved(k) {
            EndsAt(ids, given, w, k);
            HoldsToEnd(disk, ids, given, w, k);
            return 1, disk, false, ran;
          }
          Replaced(disk, Cell(ids[k], outcome));
          HoldsMore(disk, ids, given, w, k);
          disk := Others(disk, ids[k]) + [Cell(ids[k], outcome)];
          if outcome == Interrupted {
            EndsAt(ids, given, w, k);
            HoldsToEnd(disk, ids, given, w, k + 1);
            return 130, disk, false, ran;
          }
      }
    }
    ReachedBefore(ids, given, w, |ids|);
    if !w.saved(|ids|) {
      return 1, disk, false, ran;
    }
    return 0, disk, true, ran;
  }

  lemma Start(ids: seq<Id>, given: seq<Cell>, w: World)
    ensures Reached(ids, given, w, 0) && Holds(given, ids, given, w, 0)
  {
  }

  /** A cell is due exactly when the manifest at that point does not hold it. */
  lemma DueExactly(disk: seq<Cell>, ids: seq<Id>, given: seq<Cell>, w: World, k: nat)
    requires k < |ids| && Holds(disk, ids, given, w, k)
    requires (forall id | Done(given, id) :: Done(disk, id)) && forall j | 0 <= j < k :: Done(disk, ids[j])
    ensures Due(ids, given, k) <==> !Done(disk, ids[k])
  {
    ConcludedIsDone(given);
    if Done(disk, ids[k]) && !Done(given, ids[k]) {
      var i :| 0 <= i < |disk| && disk[i].id == ids[k] && Concluded(disk[i]);
      hide Recorded, Done;
      assert disk[i] in disk && disk[i] !in given;
    }
  }

  lemma ConcludedIsDone(cells: seq<Cell>)
    ensures forall c | c in cells && Concluded(c) :: Done(cells, c.id)
  {
    forall c | c in cells && Concluded(c) ensures Done(cells, c.id) {
      var i :| 0 <= i < |cells| && cells[i] == c;
    }
  }

  lemma ReachedBefore(ids: seq<Id>, given: seq<Cell>, w: World, k: nat)
    requires k <= |ids| && Reached(ids, given, w, k)
    ensures forall j | 0 <= j < k :: Reached(ids, given, w, j) && Passes(ids, given, w, j)
  {
    hide Passes;
  }

  /** Where the loop does not pass it ends. */
  lemma EndsAt(ids: seq<Id>, given: seq<Cell>, w: World, k: nat)
    requires k < |ids| && Reached(ids, given, w, k) && !Passes(ids, given, w, k)
    ensures forall j | k < j <= |ids| :: !Reached(ids, given, w, j)
    ensures forall j | 0 <= j < k :: Reached(ids, given, w, j) && Passes(ids, given, w, j)
  {
    hide Passes;
  }

  lemma HoldsToEnd(disk: seq<Cell>, ids: seq<Id>, given: seq<Cell>, w: World, k: nat)
    requires k <= |ids| && Holds(disk, ids, given, w, k)
    requires forall j | k <= j < |ids| :: !Recorded(ids, given, w, j)
    ensures Holds(disk, ids, given, w, |ids|)
  {
    hide Recorded;
  }

  /** A cell recorded with an outcome that is not an interruption is not run again by a
      resumed matrix; an interrupted one is. */
  lemma {:induction false} RunAgainExactly(disk: seq<Cell>, ids: seq<Id>, given: seq<Cell>, w: World, k: nat)
    requires k < |ids| && Holds(disk, ids, given, w, |ids|) && OncePerId(disk) && Recorded(ids, given, w, k)
    ensures Due(ids, disk, k) <==> w.run(k) == Some(Interrupted)
  {
    ConcludedIsDone(disk);
    var c := Cell(ids[k], w.run(k).value);
    assert c in disk;
    hide Holds;
    if w.run(k) == Some(Interrupted) {
      var i :| 0 <= i < |disk| && disk[i] == c;
      assert !Done(disk, ids[k]);
    }
  }
}

/**
 * The undo/redo history hook (src/hooks/useUndoRedo.js): a linear list of
 * snapshots and a cursor into it. `Timeline` is the value of the hook's two
 * pieces of state and specifies the class `UndoRedo`, which updates them in
 * place as the hook's setters do.
 */
module UndoRedoHook {

  datatype Timeline<T> = Timeline(history: seq<T>, currentIndex: nat) {

    /** The cursor points at a snapshot. */
    predicate Valid() {
      currentIndex < |history|
    }

    /** `history[currentIndex]` */
    function Current(): T
      requires Valid()
    {
      history[currentIndex]
    }

    predicate CanUndo() {
      currentIndex > 0
    }

    predicate CanRedo() {
      currentIndex + 1 < |history|
    }

    /** setState: keep the snapshots up to the cursor, append the new one, point at it. */
    function Commit(newState: T): (r: Timeline<T>)
      requires Valid()
      ensures r.Valid() && r.Current() == newState
      ensures |r.history| == currentIndex + 2 && r.currentIndex == currentIndex + 1
      ensures forall i :: 0 <= i <= currentIndex ==> r.history[i] == history[i]
      ensures !r.CanRedo()
    {
      var updatedHistory := history[..currentIndex + 1] + [newState];
      Timeline(updatedHistory, |updatedHistory| - 1)
    }

    /** undo: step back unless already at the first snapshot. */
    function Undo(): (r: Timeline<T>)
      ensures r.history == history
      ensures CanUndo() ==> r.currentIndex + 1 == currentIndex
      ensures !CanUndo() ==> r == this
      ensures Valid() ==> r.Valid()
    {
      if currentIndex > 0 then Timeline(history, currentIndex - 1) else this
    }

    /** redo: step forward unless already at the last snapshot. */
    function Redo(): (r: Timeline<T>)
      ensures r.history == history
      ensures CanRedo() ==> r.currentIndex == currentIndex + 1
      ensures !CanRedo() ==> r == this
      ensures Valid() ==> r.Valid()
    {
      if currentIndex + 1 < |history| then Timeline(history, currentIndex + 1) else this
    }
  }

  /** The hook's initial state: `[initialState]` and index 0. */
  function Start<T>(initialState: T): (t: Timeline<T>)
    ensures t.Valid() && t.Current() == initialState
    ensures !t.CanUndo() && !t.CanRedo()
  {
    Timeline([initialState], 0)
  }

  /** A commit made after undoing throws the redo branch away: redo has nothing to restore. */
  lemma CommitDiscardsRedoBranch<T>(t: Timeline<T>, s: T)
    requires t.Valid()
    ensures t.Commit(s).Redo() == t.Commit(s)
    ensures t.CanRedo() ==> |t.Commit(s).history| <= |t.history|
  {
  }

  /** An effective undo is reversed by redo, and an effective redo by undo. */
  lemma UndoRedoInverse<T>(t: Timeline<T>)
    requires t.Valid()
    ensures t.CanUndo() ==> t.Undo().Redo() == t
    ensures t.CanRedo() ==> t.Redo().Undo() == t
  {
  }

  /** setState applied to each state in turn. */
  function CommitAll<T>(t: Timeline<T>, states: seq<T>): Timeline<T>
    requires t.Valid()
    decreases |states|
  {
    if states == [] then t else CommitAll(t.Commit(states[0]), states[1..])
  }

  /** n calls of undo. */
  function UndoTimes<T>(t: Timeline<T>, n: nat): Timeline<T>
    decreases n
  {
    if n == 0 then t else UndoTimes(t.Undo(), n - 1)
  }

  /** n calls of redo. */
  function RedoTimes<T>(t: Timeline<T>, n: nat): Timeline<T>
    decreases n
  {
    if n == 0 then t else RedoTimes(t.Redo(), n - 1)
  }

  /** Committing from the newest snapshot appends. */
  lemma {:induction false} CommitAllAppends<T>(t: Timeline<T>, states: seq<T>)
    requires t.Valid() && !t.CanRedo()
    ensures CommitAll(t, states) == Timeline(t.history + states, t.currentIndex + |states|)
    decreases |states|
  {
    if states != [] {
      var t' := t.Commit(states[0]);
      assert t'.history == t.history + [states[0]];
      CommitAllAppends(t', states[1..]);
      assert t'.history + states[1..] == t.history + states;
    }
  }

  lemma {:induction false} UndoTimesSteps<T>(t: Timeline<T>, n: nat)
    requires t.Valid() && n <= t.currentIndex
    ensures UndoTimes(t, n) == Timeline(t.history, t.currentIndex - n)
    decreases n
  {
    if n > 0 {
      UndoTimesSteps(t.Undo(), n - 1);
    }
  }

  lemma {:induction false} RedoTimesSteps<T>(t: Timeline<T>, n: nat)
    requires t.Valid() && t.currentIndex + n < |t.history|
    ensures RedoTimes(t, n) == Timeline(t.history, t.currentIndex + n)
    decreases n
  {
    if n > 0 {
      RedoTimesSteps(t.Redo(), n - 1);
    }
  }

  /**
   * After N commits from the initial state, N undos return the initial
   * state and N redos then restore the N-th committed state exactly.
   */
  lemma {:induction false} UndoAllRedoAll<T>(initialState: T, states: seq<T>)
    requires states != []
    ensures var t := CommitAll(Start(initialState), states);
      var back := UndoTimes(t, |states|);
      && back.Valid() && back.Current() == initialState
      && RedoTimes(back, |states|) == t
      && t.Valid() && t.Current() == states[|states| - 1]
  {
    var n := |states|;
    var t0 := Start(initialState);
    var t := CommitAll(t0, states);
    CommitAllAppends(t0, states);
    assert t == Timeline([initialState] + states, n);
    UndoTimesSteps(t, n);
    var back := UndoTimes(t, n);
    assert back == Timeline([initialState] + states, 0);
    RedoTimesSteps(back, n);
    assert t.history[n] == states[n - 1];
  }

  /** The hook's state, updated in place by its three setters. */
  class UndoRedo<T> {
    var history: seq<T>
    var currentIndex: nat

    function Model(): Timeline<T>
      reads this
    {
      Timeline(history, currentIndex)
    }

    predicate Valid()
      reads this
    {
      currentIndex < |history|
    }

    constructor (initialState: T)
      ensures Valid() && Model() == Start(initialState)
      ensures history == [initialState] && currentIndex == 0
    {
      history := [initialState];
      currentIndex := 0;
    }

    /** `history[currentIndex]` */
    function CurrentState(): (s: T)
      reads this
      requires Valid()
      ensures s == Model().Current() && s in history
    {
      history[currentIndex]
    }

    method SetState(newState: T)
      requires Valid()
      modifies this
      ensures Valid() && Model() == old(Model()).Commit(newState)
      ensures history == old(history[..currentIndex + 1]) + [newState]
      ensures currentIndex == |history| - 1 && CurrentState() == newState
    {
      var updatedHistory := history[..currentIndex + 1];
      updatedHistory := updatedHistory + [newState];
      history := updatedHistory;
      currentIndex := |updatedHistory| - 1;
    }

    method Undo()
      requires Valid()
      modifies this
      ensures Valid() && Model() == old(Model()).Undo()
      ensures history == old(history)
      ensures currentIndex == if old(currentIndex) > 0 then old(currentIndex) - 1 else old(currentIndex)
    {
      if currentIndex > 0 {
        currentIndex := currentIndex - 1;
      }
    }

    method Redo()
      requires Valid()
      modifies this
      ensures Valid() && Model() == old(Model()).Redo()
      ensures history == old(history)
      ensures currentIndex == if old(currentIndex) < |history| - 1 then old(currentIndex) + 1 else old(currentIndex)
    {
      if currentIndex < |history| - 1 {
        currentIndex := currentIndex + 1;
      }
    }
  }
}

/** The undo/redo history of editor actions (Assets/Scripts/Utility/UndoStack.cs).
    An action is an opaque pair of callbacks; calling one of them is recorded
    in an effect log, since the callbacks themselves are code outside this model.
    The top of each stack is the last element of its sequence. */
module UndoStack {

  /** A callback that the stack invoked on an action. */
  datatype Effect<A> = Executed(action: A) | Reverted(action: A)

  /** The two stacks as a value. */
  datatype Stacks<A> = Stacks(undo: seq<A>, redo: seq<A>)

  /** The stacks after pushing an executed action. */
  function AfterPush<A>(s: Stacks<A>, a: A, consistent: bool): (r: Stacks<A>)
    ensures r.undo == s.undo + [a]
    ensures r.redo == if consistent then s.redo else []
  {
    Stacks(s.undo + [a], if consistent then s.redo else [])
  }

  /** The stacks after `Undo`: the undo top moves onto the redo stack. */
  function AfterUndo<A>(s: Stacks<A>): (r: Stacks<A>)
    requires |s.undo| > 0
    ensures |r.undo| == |s.undo| - 1 && |r.redo| == |s.redo| + 1
    ensures r.redo[|r.redo| - 1] == s.undo[|s.undo| - 1]
    ensures r.undo + [s.undo[|s.undo| - 1]] == s.undo
  {
    Stacks(s.undo[..|s.undo| - 1], s.redo + [s.undo[|s.undo| - 1]])
  }

  /** The stacks after `Redo`: the redo top moves onto the undo stack. */
  function AfterRedo<A>(s: Stacks<A>): (r: Stacks<A>)
    requires |s.redo| > 0
    ensures |r.redo| == |s.redo| - 1 && |r.undo| == |s.undo| + 1
    ensures r.undo[|r.undo| - 1] == s.redo[|s.redo| - 1]
    ensures r.redo + [s.redo[|s.redo| - 1]] == s.redo
  {
    Stacks(s.undo + [s.redo[|s.redo| - 1]], s.redo[..|s.redo| - 1])
  }

  /** Undo followed by Redo restores both stacks exactly. */
  lemma UndoThenRedo<A>(s: Stacks<A>)
    requires |s.undo| > 0
    ensures |AfterUndo(s).redo| > 0 && AfterRedo(AfterUndo(s)) == s
  {
    var u := AfterUndo(s);
    assert u.undo + [s.undo[|s.undo| - 1]] == s.undo;
    assert AfterRedo(u).redo == s.redo;
  }

  /** Redo followed by Undo restores both stacks exactly. */
  lemma RedoThenUndo<A>(s: Stacks<A>)
    requires |s.redo| > 0
    ensures |AfterRedo(s).undo| > 0 && AfterUndo(AfterRedo(s)) == s
  {
    var r := AfterRedo(s);
    assert r.redo + [s.redo[|s.redo| - 1]] == s.redo;
    assert AfterUndo(r).undo == s.undo;
  }

  /** Undoing a push gives the old undo stack back and leaves the pushed
      action redoable on top of the kept redo history; an inconsistent
      stack keeps only that action. */
  lemma PushThenUndo<A>(s: Stacks<A>, a: A, consistent: bool)
    ensures |AfterPush(s, a, consistent).undo| > 0
    ensures AfterUndo(AfterPush(s, a, consistent)) == Stacks(s.undo, (if consistent then s.redo else []) + [a])
  {
    var p := AfterPush(s, a, consistent);
    assert p.undo[..|p.undo| - 1] == s.undo;
  }

  class UndoStack<A> {
    var undo: seq<A>
    var redo: seq<A>
    /** Whether an undone action stays redoable after new actions are pushed. */
    const consistent: bool
    /** The callbacks invoked so far, oldest first. */
    var effects: seq<Effect<A>>

    function State(): Stacks<A>
      reads this
    {
      Stacks(undo, redo)
    }

    constructor (consistent: bool)
      ensures this.consistent == consistent
      ensures undo == [] && redo == [] && effects == []
    {
      this.consistent := consistent;
      undo, redo, effects := [], [], [];
    }

    /** Runs the action and pushes it; an inconsistent stack forgets its redo history. */
    method PushAndExecute(a: A)
      modifies this
      ensures State() == AfterPush(old(State()), a, consistent)
      ensures effects == old(effects) + [Executed(a)]
    {
      effects := effects + [Executed(a)];
      undo := undo + [a];
      if !consistent {
        redo := [];
      }
    }

    /** Pushes the action without running it; the redo stack is kept. */
    method PushNoExecute(a: A)
      modifies this
      ensures undo == old(undo) + [a] && redo == old(redo)
      ensures effects == old(effects)
    {
      undo := undo + [a];
    }

    predicate CanUndo()
      reads this
    {
      |undo| > 0
    }

    predicate CanRedo()
      reads this
    {
      |redo| > 0
    }

    /** Reverts the top undo action and moves it onto the redo stack. */
    method Undo()
      requires CanUndo()
      modifies this
      ensures State() == AfterUndo(old(State()))
      ensures effects == old(effects) + [Reverted(old(undo[|undo| - 1]))]
    {
      var a := undo[|undo| - 1];
      undo := undo[..|undo| - 1];
      effects := effects + [Reverted(a)];
      redo := redo + [a];
    }

    /** Runs the top redo action again and moves it onto the undo stack. */
    method Redo()
      requires CanRedo()
      modifies this
      ensures State() == AfterRedo(old(State()))
      ensures effects == old(effects) + [Executed(old(redo[|redo| - 1]))]
    {
      var a := redo[|redo| - 1];
      redo := redo[..|redo| - 1];
      effects := effects + [Executed(a)];
      undo := undo + [a];
    }
  }
}

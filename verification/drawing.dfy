/** The drawing store: the element list, the tool and style settings, and a
    linear undo log of element-list snapshots with a cursor into it. */
module DrawingSlice {
  import opened Wrappers
  import opened Elements

  datatype DrawingState = DrawingState(
    elements: seq<Element>,
    currentTool: Tool,
    strokeColor: string,
    strokeWidth: int,
    fillColor: string,
    history: seq<seq<Element>>,
    currentIndex: int)
  {
    /** The cursor range the reducers keep: -1 before the first commit,
        otherwise an index of `history`. */
    predicate Valid() {
      -1 <= currentIndex < |history|
    }

    /** The element list is the snapshot under the cursor (the empty list
        before the first commit). Every commit establishes this;
        `updateElement` may break it. */
    predicate Synced() {
      Valid() && elements == (if currentIndex < 0 then [] else history[currentIndex])
    }

    predicate CanUndo() {
      currentIndex > 0
    }

    predicate CanRedo() {
      currentIndex < |history| - 1
    }
  }

  /** The actions the store accepts. */
  datatype Action =
    | AddElement(element: Element)
    | UpdateElement(id: string, patch: Patch)
    | ClearCanvas
    | Undo
    | Redo
    | SetTool(tool: Tool)
    | SetStrokeColor(color: string)
    | SetStrokeWidth(width: int)
    | SetFillColor(color: string)

  /** The state the application starts with. */
  const Initial := DrawingState([], Pencil, "#000000", 2, "transparent", [], -1)

  lemma InitialSynced()
    ensures Initial.Synced() && !Initial.CanUndo() && !Initial.CanRedo()
  {
  }

  /** The commit protocol shared by `addElement` and `clearCanvas`: install
      the new element list, drop every snapshot after the cursor, append a
      snapshot of the new list and advance the cursor onto it. */
  function Commit(s: DrawingState, elements: seq<Element>): (r: DrawingState)
    requires s.Valid()
    ensures r.Synced()
    ensures r.elements == elements
    ensures r.currentIndex == s.currentIndex + 1
    ensures |r.history| == s.currentIndex + 2
    ensures r.history[..s.currentIndex + 1] == s.history[..s.currentIndex + 1]
    ensures r.history[r.currentIndex] == elements
    ensures !r.CanRedo()
    ensures r.(elements := s.elements, history := s.history, currentIndex := s.currentIndex) == s
  {
    s.(elements := elements,
       history := s.history[..s.currentIndex + 1] + [elements],
       currentIndex := s.currentIndex + 1)
  }

  /** `addElement`: push the element, then commit. */
  function AddElementTo(s: DrawingState, e: Element): (r: DrawingState)
    requires s.Valid()
    ensures r.Synced()
    ensures |r.elements| == |s.elements| + 1
    ensures r.elements[..|s.elements|] == s.elements && r.elements[|s.elements|] == e
    ensures r.currentIndex == s.currentIndex + 1
    ensures |r.history| == s.currentIndex + 2
    ensures r.history[..s.currentIndex + 1] == s.history[..s.currentIndex + 1]
    ensures r.history[r.currentIndex] == r.elements
    ensures r.(elements := s.elements, history := s.history, currentIndex := s.currentIndex) == s
  {
    Commit(s, s.elements + [e])
  }

  /** `updateElement`: merge the patch into every element with the given id.
      Nothing is committed. */
  function UpdateElementIn(s: DrawingState, id: string, p: Patch): (r: DrawingState)
    ensures |r.elements| == |s.elements|
    ensures forall i :: 0 <= i < |s.elements| ==>
      r.elements[i] == (if s.elements[i].id == id then Merge(s.elements[i], p) else s.elements[i])
    ensures r.(elements := s.elements) == s
  {
    s.(elements := seq(|s.elements|, i requires 0 <= i < |s.elements| =>
      if s.elements[i].id == id then Merge(s.elements[i], p) else s.elements[i]))
  }

  /** `clearCanvas`: empty the element list, then commit, so a clear is
      itself undoable. */
  function ClearCanvasOf(s: DrawingState): (r: DrawingState)
    requires s.Valid()
    ensures r.Synced()
    ensures r.elements == []
    ensures r.currentIndex == s.currentIndex + 1
    ensures |r.history| == s.currentIndex + 2
    ensures r.history[..s.currentIndex + 1] == s.history[..s.currentIndex + 1]
    ensures r.history[r.currentIndex] == []
    ensures r.(elements := s.elements, history := s.history, currentIndex := s.currentIndex) == s
  {
    Commit(s, [])
  }

  /** `undo`: step the cursor back and restore that snapshot, unless the
      cursor is at the first snapshot or before it. */
  function UndoOf(s: DrawingState): (r: DrawingState)
    requires s.Valid()
    ensures r.Valid()
    ensures r.history == s.history
    ensures !s.CanUndo() ==> r == s
    ensures s.CanUndo() ==> r.currentIndex == s.currentIndex - 1 && r.Synced()
    ensures r.currentIndex >= 0 <==> s.currentIndex >= 0
    ensures r.(elements := s.elements, currentIndex := s.currentIndex) == s
  {
    if s.currentIndex > 0 then
      s.(currentIndex := s.currentIndex - 1, elements := s.history[s.currentIndex - 1])
    else
      s
  }

  /** `redo`: step the cursor forward and restore that snapshot, unless the
      cursor is at the last snapshot. */
  function RedoOf(s: DrawingState): (r: DrawingState)
    requires s.Valid()
    ensures r.Valid()
    ensures r.history == s.history
    ensures !s.CanRedo() ==> r == s
    ensures s.CanRedo() ==> r.currentIndex == s.currentIndex + 1 && r.Synced()
    ensures r.(elements := s.elements, currentIndex := s.currentIndex) == s
  {
    if s.currentIndex < |s.history| - 1 then
      s.(currentIndex := s.currentIndex + 1, elements := s.history[s.currentIndex + 1])
    else
      s
  }

  function SetToolOf(s: DrawingState, t: Tool): (r: DrawingState)
    ensures r.currentTool == t
    ensures r.(currentTool := s.currentTool) == s
  {
    s.(currentTool := t)
  }

  function SetStrokeColorOf(s: DrawingState, c: string): (r: DrawingState)
    ensures r.strokeColor == c
    ensures r.(strokeColor := s.strokeColor) == s
  {
    s.(strokeColor := c)
  }

  function SetStrokeWidthOf(s: DrawingState, w: int): (r: DrawingState)
    ensures r.strokeWidth == w
    ensures r.(strokeWidth := s.strokeWidth) == s
  {
    s.(strokeWidth := w)
  }

  function SetFillColorOf(s: DrawingState, c: string): (r: DrawingState)
    ensures r.fillColor == c
    ensures r.(fillColor := s.fillColor) == s
  {
    s.(fillColor := c)
  }

  /** The actions that push a snapshot onto the history. */
  predicate IsCommit(a: Action) {
    a.AddElement? || a.ClearCanvas?
  }

  /** The reducer: one action applied to the store. */
  function Reduce(s: DrawingState, a: Action): (r: DrawingState)
    requires s.Valid()
    ensures r.Valid()
    ensures IsCommit(a) ==> r.Synced() && !r.CanRedo()
    ensures !IsCommit(a) ==> r.history == s.history
    ensures a.UpdateElement? || (s.Synced() ==> r.Synced())
    ensures s.currentIndex >= 0 ==> r.currentIndex >= 0
    ensures s.currentIndex == -1 && |s.history| == 0 && !IsCommit(a) ==> r.currentIndex == -1
  {
    match a
    case AddElement(e) => AddElementTo(s, e)
    case UpdateElement(id, p) => UpdateElementIn(s, id, p)
    case ClearCanvas => ClearCanvasOf(s)
    case Undo => UndoOf(s)
    case Redo => RedoOf(s)
    case SetTool(t) => SetToolOf(s, t)
    case SetStrokeColor(c) => SetStrokeColorOf(s, c)
    case SetStrokeWidth(w) => SetStrokeWidthOf(s, w)
    case SetFillColor(c) => SetFillColorOf(s, c)
  }

  /** Actions applied one after another, oldest first. */
  function ReduceAll(s: DrawingState, actions: seq<Action>): (r: DrawingState)
    requires s.Valid()
    ensures r.Valid()
    decreases |actions|
  {
    if |actions| == 0 then s else Reduce(ReduceAll(s, actions[..|actions| - 1]), actions[|actions| - 1])
  }

  /** From the initial state, the cursor is -1 exactly while nothing has been
      committed: once a snapshot exists no undo can move the cursor off the
      first snapshot. Without `updateElement` the element list always equals
      the snapshot under the cursor. */
  lemma {:induction false} ReachableAnchored(actions: seq<Action>)
    ensures var r := ReduceAll(Initial, actions);
      (r.currentIndex == -1) == (|r.history| == 0)
    ensures (forall i :: 0 <= i < |actions| ==> !actions[i].UpdateElement?) ==>
      ReduceAll(Initial, actions).Synced()
    decreases |actions|
  {
    if |actions| > 0 {
      var prefix := actions[..|actions| - 1];
      assert forall i :: 0 <= i < |prefix| ==> prefix[i] == actions[i];
      ReachableAnchored(prefix);
    }
  }

  /** Undo then redo restores the store exactly. */
  lemma UndoRedoRoundTrip(s: DrawingState)
    requires s.Synced() && s.CanUndo()
    ensures RedoOf(UndoOf(s)) == s
  {
  }

  /** Redo then undo restores the store exactly, once anything is committed. */
  lemma RedoUndoRoundTrip(s: DrawingState)
    requires s.Synced() && s.CanRedo() && s.currentIndex >= 0
    ensures UndoOf(RedoOf(s)) == s
  {
  }

  /** Undoing a clear brings back the elements present before it. */
  lemma ClearThenUndo(s: DrawingState)
    requires s.Synced()
    ensures UndoOf(ClearCanvasOf(s)).elements == s.elements
  {
  }

  /** Undoing an addition brings back the elements present before it,
      unless the addition was the very first commit. */
  lemma AddThenUndo(s: DrawingState, e: Element)
    requires s.Synced() && s.currentIndex >= 0
    ensures UndoOf(AddElementTo(s, e)).elements == s.elements
    ensures UndoOf(AddElementTo(s, e)).currentIndex == s.currentIndex
  {
  }

  /** A commit after undoing discards the redo branch: the snapshots up to
      the cursor survive, the ones after it are replaced by the single new
      snapshot, and a redo right after the commit has nothing to restore. */
  lemma CommitTruncates(s: DrawingState, e: Element)
    requires s.Valid() && s.CanRedo()
    ensures AddElementTo(s, e).history == s.history[..s.currentIndex + 1] + [s.elements + [e]]
    ensures |AddElementTo(s, e).history| < |s.history| + 1
    ensures !AddElementTo(s, e).CanRedo()
    ensures RedoOf(AddElementTo(s, e)) == AddElementTo(s, e)
  {
  }

  function UndoTimes(s: DrawingState, n: nat): (r: DrawingState)
    requires s.Valid()
    ensures r.Valid()
    ensures r.history == s.history
    decreases n
  {
    if n == 0 then s else UndoOf(UndoTimes(s, n - 1))
  }

  function RedoTimes(s: DrawingState, n: nat): (r: DrawingState)
    requires s.Valid()
    ensures r.Valid()
    ensures r.history == s.history
    decreases n
  {
    if n == 0 then s else RedoOf(RedoTimes(s, n - 1))
  }

  /** `n` undos step the cursor back `n` times but never below the first
      snapshot, and each effective step restores its snapshot. */
  lemma {:induction false} UndoTimesStopsAtFirst(s: DrawingState, n: nat)
    requires s.Valid()
    ensures var r := UndoTimes(s, n);
      r.currentIndex == (if s.currentIndex <= 0 then s.currentIndex
                         else if s.currentIndex - n < 0 then 0 else s.currentIndex - n)
    ensures var r := UndoTimes(s, n);
      n > 0 && s.CanUndo() ==> r.Synced()
    ensures var r := UndoTimes(s, n);
      !s.CanUndo() ==> r == s
    decreases n
  {
    if n > 0 {
      UndoTimesStopsAtFirst(s, n - 1);
    }
  }

  /** `n` redos step the cursor forward `n` times but never past the last
      snapshot, and each effective step restores its snapshot. */
  lemma {:induction false} RedoTimesStopsAtLast(s: DrawingState, n: nat)
    requires s.Valid()
    ensures var r := RedoTimes(s, n);
      r.currentIndex == (if s.currentIndex + n > |s.history| - 1 then
                           (if s.CanRedo() then |s.history| - 1 else s.currentIndex)
                         else s.currentIndex + n)
    ensures var r := RedoTimes(s, n);
      n > 0 && s.CanRedo() ==> r.Synced()
    ensures var r := RedoTimes(s, n);
      !s.CanRedo() ==> r == s
    decreases n
  {
    if n > 0 {
      RedoTimesStopsAtLast(s, n - 1);
    }
  }

  /** A style or tool setter commutes with undo and never touches the
      history. */
  lemma SettersCommuteWithUndo(s: DrawingState, t: Tool, c: string, w: int)
    requires s.Valid()
    ensures UndoOf(SetToolOf(s, t)) == SetToolOf(UndoOf(s), t)
    ensures UndoOf(SetStrokeColorOf(s, c)) == SetStrokeColorOf(UndoOf(s), c)
    ensures UndoOf(SetStrokeWidthOf(s, w)) == SetStrokeWidthOf(UndoOf(s), w)
    ensures UndoOf(SetFillColorOf(s, c)) == SetFillColorOf(UndoOf(s), c)
  {
  }

  /** A style or tool setter commutes with redo. */
  lemma SettersCommuteWithRedo(s: DrawingState, t: Tool, c: string, w: int)
    requires s.Valid()
    ensures RedoOf(SetToolOf(s, t)) == SetToolOf(RedoOf(s), t)
    ensures RedoOf(SetStrokeColorOf(s, c)) == SetStrokeColorOf(RedoOf(s), c)
    ensures RedoOf(SetStrokeWidthOf(s, w)) == SetStrokeWidthOf(RedoOf(s), w)
    ensures RedoOf(SetFillColorOf(s, c)) == SetFillColorOf(RedoOf(s), c)
  {
  }

  /** Updating the same id with the same patch twice is updating it once;
      an update with no keys changes nothing. */
  lemma UpdateIdempotent(s: DrawingState, id: string, p: Patch)
    ensures UpdateElementIn(UpdateElementIn(s, id, p), id, p) == UpdateElementIn(s, id, p)
    ensures UpdateElementIn(s, id, EmptyPatch) == s
  {
    var once := UpdateElementIn(s, id, p);
    var twice := UpdateElementIn(once, id, p);
    forall i | 0 <= i < |s.elements|
      ensures twice.elements[i] == once.elements[i]
    {
      MergeIdempotent(s.elements[i], p);
    }
    assert twice.elements == once.elements;
    var none := UpdateElementIn(s, id, EmptyPatch);
    forall i | 0 <= i < |s.elements|
      ensures none.elements[i] == s.elements[i]
    {
      MergeEmpty(s.elements[i]);
    }
    assert none.elements == s.elements;
  }
}

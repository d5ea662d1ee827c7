/** The selection set and the grid/compare view mode, written as a reducer:
    every user event maps the current state to the next one. */
module Selection {

  /** The most models that can be compared side by side. */
  const MaxSelected: nat := 5

  datatype ViewMode = Grid | Compare

  datatype State = State(selected: set<string>, mode: ViewMode)

  /** The user events that touch selection or view mode. `Back` is the
      comparison view's back button, `LogoClick` the header logo. */
  datatype Event = Toggle(id: string) | Clear | EnterCompare | Back | LogoClick

  /** The next state, and whether the user was shown the "up to 5 models"
      alert. */
  datatype Outcome = Outcome(next: State, limitAlert: bool)

  const Initial := State({}, Grid)

  /** At most five ids are selected, and compare mode always has something
      to compare. */
  predicate Valid(s: State) {
    |s.selected| <= MaxSelected && (s.mode == Compare ==> |s.selected| >= 1)
  }

  /** Clicking a card (or a column's remove button): deselect a selected id,
      select an unselected one while fewer than five are selected, and
      otherwise refuse with an alert. */
  function ToggleSelection(s: State, id: string): (o: Outcome)
    ensures o.limitAlert <==> id !in s.selected && |s.selected| >= MaxSelected
    ensures o.limitAlert ==> o.next == s
    ensures id !in s.selected && |s.selected| < MaxSelected ==>
              o.next == State(s.selected + {id}, s.mode) && id in o.next.selected
    ensures id in s.selected ==>
              o.next.selected == s.selected - {id} && id !in o.next.selected &&
              |o.next.selected| == |s.selected| - 1
    ensures id in s.selected ==>
              o.next.mode == (if |s.selected| == 1 then Grid else s.mode)
    ensures o.next.mode == Compare ==> s.mode == Compare
  {
    if id in s.selected then
      var rest := s.selected - {id};
      Outcome(State(rest, if |rest| == 0 && s.mode == Compare then Grid else s.mode), false)
    else if |s.selected| >= MaxSelected then
      Outcome(s, true)
    else
      Outcome(State(s.selected + {id}, s.mode), false)
  }

  /** The floating bar's "Clear" button. */
  function ClearSelection(s: State): (t: State)
    ensures t.selected == {} && t.mode == Grid
  {
    State({}, Grid)
  }

  /** "Compare Now": the button is only rendered in grid mode with a
      non-empty selection, so the event does nothing otherwise. */
  function EnterComparison(s: State): (t: State)
    ensures t.selected == s.selected
    ensures t.mode == Compare ==> s.mode == Compare || |s.selected| > 0
    ensures s.mode == Compare || |s.selected| > 0 ==> t.mode == Compare
  {
    State(s.selected, if s.mode == Grid && |s.selected| > 0 then Compare else s.mode)
  }

  /** The back button and the logo both return to the grid and keep the
      selection. */
  function BackToGrid(s: State): (t: State)
    ensures t.selected == s.selected && t.mode == Grid
  {
    State(s.selected, Grid)
  }

  function Step(s: State, e: Event): (o: Outcome)
    ensures o.limitAlert ==> e.Toggle? && o.next == s
  {
    match e
    case Toggle(id) => ToggleSelection(s, id)
    case Clear => Outcome(ClearSelection(s), false)
    case EnterCompare => Outcome(EnterComparison(s), false)
    case Back => Outcome(BackToGrid(s), false)
    case LogoClick => Outcome(BackToGrid(s), false)
  }

  /** The state after a run of events. */
  function Run(s: State, events: seq<Event>): State
    decreases |events|
  {
    if |events| == 0 then s else Run(Step(s, events[0]).next, events[1..])
  }

  /** Every event keeps the state valid. */
  lemma StepPreservesValid(s: State, e: Event)
    requires Valid(s)
    ensures Valid(Step(s, e).next)
  {
  }

  /** Every state reachable from the initial one is valid: never more than
      five selected ids, never compare mode with nothing selected. */
  lemma {:induction false} RunPreservesValid(s: State, events: seq<Event>)
    requires Valid(s)
    ensures Valid(Run(s, events))
    decreases |events|
  {
    if |events| > 0 {
      StepPreservesValid(s, events[0]);
      RunPreservesValid(Step(s, events[0]).next, events[1..]);
    }
  }

  lemma ReachableIsValid(events: seq<Event>)
    ensures Valid(Run(Initial, events))
  {
    RunPreservesValid(Initial, events);
  }

  /** Toggling the same id twice gives back the original selection, whether
      the first toggle added, removed or was refused; compare mode may be
      left but is never entered. */
  lemma ToggleTwice(s: State, id: string)
    requires |s.selected| <= MaxSelected
    ensures ToggleSelection(ToggleSelection(s, id).next, id).next.selected == s.selected
    ensures ToggleSelection(ToggleSelection(s, id).next, id).next.mode == Compare ==> s.mode == Compare
    ensures s.selected == {} ==> ToggleSelection(ToggleSelection(s, id).next, id).next.mode == Grid
  {
    if id in s.selected {
      assert s.selected - {id} + {id} == s.selected;
    } else if |s.selected| < MaxSelected {
      assert s.selected + {id} - {id} == s.selected;
    }
  }

  /** Deselecting the last id while comparing always lands in the grid. */
  lemma EmptyingSelectionLeavesCompare(s: State, id: string)
    requires s.selected == {id} && s.mode == Compare
    ensures ToggleSelection(s, id).next == State({}, Grid)
  {
  }
}

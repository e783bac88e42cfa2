/** The key browser's UI object: its filter fields (the criteria list fixed
    at construction, the other three updated in place),
    the criterion selection methods, one keystroke of its main loop, and the
    loop itself over a finite run of keystrokes. Each method is proved
    against the value-level definitions in `FilterMode`. */
module Interactive {
  import opened Legends
  import opened FilterMode

  class UI {
    var isFiltering: bool
    var filter: string
    var filterCriteria: seq<string>
    var activeFilterCriteria: string

    /** The fields as a `FilterMode.State` value. */
    function Snapshot(): State
      reads this
    {
      State(isFiltering, filter, filterCriteria, activeFilterCriteria)
    }

    /** The object invariant: the active criterion is one of the criteria. */
    predicate Valid()
      reads this
    {
      FilterMode.Valid(Snapshot())
    }

    /** Not filtering, no filter text, the first criterion active. The list
        must be non-empty: its first element is read. */
    constructor (filterCriteria: seq<string>)
      requires |filterCriteria| > 0
      ensures Valid()
      ensures Snapshot() == Initial(filterCriteria)
    {
      isFiltering := false;
      filter := "";
      this.filterCriteria := filterCriteria;
      activeFilterCriteria := filterCriteria[0];
    }

    /** The filter box drawn before each keystroke is read: the labels'
        texts and the criterion label's colour. */
    method UpdateFilterBox() returns (box: FilterBox)
      ensures box == View(Snapshot())
    {
      var valueLabel := filter;
      var criterion := activeFilterCriteria + "=";
      var criterionLabel;
      if |filter| > 0 {
        criterionLabel := criterion;
      } else {
        criterionLabel := if isFiltering then criterion else "";
      }
      var color := if isFiltering then FilterCriteriaEditing else FilterCriteria;
      box := FilterBox(criterionLabel, color, valueLabel);
    }

    method SelectPreviousFilterCriteria()
      requires Valid()
      modifies this`activeFilterCriteria
      ensures Valid()
      ensures activeFilterCriteria == PreviousCriterion(filterCriteria, old(activeFilterCriteria))
    {
      var index := IndexOf(filterCriteria, activeFilterCriteria) as int;
      index := index - 1;
      if index < 0 {
        index := |filterCriteria| - 1;
      }
      activeFilterCriteria := filterCriteria[index];
    }

    method SelectNextFilterCriteria()
      requires Valid()
      modifies this`activeFilterCriteria
      ensures Valid()
      ensures activeFilterCriteria == NextCriterion(filterCriteria, old(activeFilterCriteria))
    {
      var index := IndexOf(filterCriteria, activeFilterCriteria);
      index := index + 1;
      if index >= |filterCriteria| {
        index := 0;
      }
      activeFilterCriteria := filterCriteria[index];
    }

    /** One pass of the main loop after the keystroke is read: update the
        fields and tell the loop whether to swap the legend or to quit. */
    method Step(key: Key) returns (outcome: Outcome)
      requires Valid()
      modifies this`isFiltering, this`filter, this`activeFilterCriteria
      ensures Valid()
      ensures (Snapshot(), outcome) == Transition(old(Snapshot()), key)
    {
      outcome := Continue;
      if isFiltering {
        match key {
          case Escape =>
            isFiltering := false;
            outcome := SwitchLegend(MainLegend);
            filter := "";
          case Enter =>
            isFiltering := false;
            outcome := SwitchLegend(MainLegend);
          case Backspace =>
            filter := DropLast(filter);
          case Up =>
            SelectPreviousFilterCriteria();
          case Down =>
            SelectNextFilterCriteria();
          case Left =>
          case Right =>
          case Char(character) =>
            filter := filter + [character];
        }
      } else {
        if key == Char(FilterKey) {
          isFiltering := true;
          outcome := SwitchLegend(FilterLegend);
        }
        if key == Char(ClearKey) {
          filter := "";
        }
        if key == Char(QuitKey) {
          outcome := Quit;
        }
      }
    }

    /** The main loop over a finite run of keystrokes: it starts with the main
        legend and stops after a keystroke that quits or when the input is
        used up. `legend` is the legend on screen at the end. */
    method Loop(input: seq<Key>) returns (legend: Legend, consumed: nat, quit: bool)
      requires Valid()
      modifies this`isFiltering, this`filter, this`activeFilterCriteria
      ensures Valid()
      ensures RunResult(Snapshot(), legend, consumed, quit) == Run(old(Snapshot()), MainLegend, input)
      ensures !old(isFiltering) ==> legend == LegendFor(isFiltering)
    {
      legend := MainLegend;
      consumed, quit := 0, false;
      ghost var start := Snapshot();
      while consumed < |input| && !quit
        invariant Valid() && filterCriteria == start.criteria
        invariant consumed <= |input|
        invariant !quit ==> Run(start, MainLegend, input)
                            == Shift(Run(Snapshot(), legend, input[consumed..]), consumed)
        invariant quit ==> Run(start, MainLegend, input) == RunResult(Snapshot(), legend, consumed, true)
        decreases |input| - consumed
      {
        var outcome := Step(input[consumed]);
        if outcome.SwitchLegend? {
          legend := outcome.to;
        }
        assert input[consumed..][0] == input[consumed];
        assert input[consumed..][1..] == input[consumed + 1..];
        consumed := consumed + 1;
        if outcome == Quit {
          quit := true;
        }
      }
      if !quit {
        assert input[consumed..] == [];
      }
    }
  }
}

/** The filter-mode state machine of the key browser, as values: the state
    it keeps, how one keystroke changes it, how a run of keystrokes does, and
    what the filter box shows for a state. The class `Interactive.UI` is
    proved against these definitions. */
module FilterMode {
  import opened Legends

  /** An abstract keystroke as read from the terminal. The special keys are
      symbolic; every other key carries the character its code stands for. */
  datatype Key = Escape | Enter | Backspace | Up | Down | Left | Right | Char(c: char)

  /** The characters of the browsing commands F (filter), C (clear) and Q (quit). */
  const FilterKey: char := 'f'
  const ClearKey: char := 'c'
  const QuitKey: char := 'q'

  /** What one keystroke asks of the loop around the state machine. */
  datatype Outcome = Continue | SwitchLegend(to: Legend) | Quit

  /** The four fields of the browser's filter state. */
  datatype State = State(isFiltering: bool, filter: string, criteria: seq<string>, active: string)

  /** The state invariant: the active criterion is one of the criteria
      (so in particular there is at least one). */
  predicate Valid(s: State)
  {
    s.active in s.criteria
  }

  /** The legend that belongs to a mode. */
  function LegendFor(isFiltering: bool): Legend
  {
    if isFiltering then FilterLegend else MainLegend
  }

  /** The state of a freshly built browser. */
  function Initial(criteria: seq<string>): (s: State)
    requires |criteria| > 0
    ensures Valid(s)
    ensures !s.isFiltering && s.filter == "" && s.criteria == criteria
    ensures s.active == criteria[0]
  {
    State(false, "", criteria, criteria[0])
  }

  ghost predicate Distinct<T>(xs: seq<T>)
  {
    forall i, j :: 0 <= i < j < |xs| ==> xs[i] != xs[j]
  }

  /** The position of the first occurrence of `x`, as a list's `index` gives it. */
  function IndexOf<T(==)>(xs: seq<T>, x: T): (i: nat)
    requires x in xs
    ensures i < |xs| && xs[i] == x
    ensures forall j :: 0 <= j < i ==> xs[j] != x
  {
    if xs[0] == x then 0
    else
      assert x in xs[1..] by { var k :| 0 <= k < |xs| && xs[k] == x; assert xs[1..][k - 1] == x; }
      1 + IndexOf(xs[1..], x)
  }

  lemma IndexOfDistinct<T>(xs: seq<T>, k: nat)
    requires Distinct(xs) && k < |xs|
    ensures IndexOf(xs, xs[k]) == k
  {
  }

  /** The criterion after the active one, wrapping from the last to the first. */
  function NextCriterion<T(==)>(criteria: seq<T>, active: T): (r: T)
    requires active in criteria
    ensures r in criteria
  {
    var index := IndexOf(criteria, active) + 1;
    criteria[if index >= |criteria| then 0 else index]
  }

  /** The criterion before the active one, wrapping from the first to the last. */
  function PreviousCriterion<T(==)>(criteria: seq<T>, active: T): (r: T)
    requires active in criteria
    ensures r in criteria
  {
    var index := IndexOf(criteria, active) - 1;
    criteria[if index < 0 then |criteria| - 1 else index]
  }

  /** One step forward and one step back on a cycle of length `n`. */
  lemma CyclicSteps(k: nat, n: nat)
    requires k < n
    ensures (k + 1) % n == if k + 1 == n then 0 else k + 1
    ensures (k + n - 1) % n == if k == 0 then n - 1 else k - 1
  {
    if k + 1 == n {
      assert (k + 1) % n == n % n;
    }
    if k > 0 {
      assert k + n - 1 == (k - 1) + n;
    }
  }

  /** On any list, repeats included, "next" moves one position on from the
      first occurrence of the active criterion, cyclically. */
  lemma NextByPosition<T>(criteria: seq<T>, active: T)
    requires active in criteria
    ensures NextCriterion(criteria, active) == criteria[(IndexOf(criteria, active) + 1) % |criteria|]
  {
    CyclicSteps(IndexOf(criteria, active), |criteria|);
  }

  /** On any list, repeats included, "previous" moves one position back from
      the first occurrence of the active criterion, cyclically. */
  lemma PreviousByPosition<T>(criteria: seq<T>, active: T)
    requires active in criteria
    ensures PreviousCriterion(criteria, active) == criteria[(IndexOf(criteria, active) + |criteria| - 1) % |criteria|]
  {
    CyclicSteps(IndexOf(criteria, active), |criteria|);
  }

  /** With distinct criteria, "next" moves one position on, cyclically. */
  lemma NextAt<T>(criteria: seq<T>, k: nat)
    requires Distinct(criteria) && k < |criteria|
    ensures NextCriterion(criteria, criteria[k]) == criteria[(k + 1) % |criteria|]
  {
    IndexOfDistinct(criteria, k);
    NextByPosition(criteria, criteria[k]);
  }

  /** With distinct criteria, "previous" moves one position back, cyclically. */
  lemma PreviousAt<T>(criteria: seq<T>, k: nat)
    requires Distinct(criteria) && k < |criteria|
    ensures PreviousCriterion(criteria, criteria[k]) == criteria[(k + |criteria| - 1) % |criteria|]
  {
    IndexOfDistinct(criteria, k);
    PreviousByPosition(criteria, criteria[k]);
  }

  /** The wrap-around cases on any list: next from the last position is the
      first criterion, and previous of the first criterion is the last one. */
  lemma Wraps<T>(criteria: seq<T>, active: T)
    requires active in criteria
    ensures IndexOf(criteria, active) == |criteria| - 1 ==> NextCriterion(criteria, active) == criteria[0]
    ensures PreviousCriterion(criteria, criteria[0]) == criteria[|criteria| - 1]
  {
    NextByPosition(criteria, active);
    PreviousByPosition(criteria, criteria[0]);
  }

  /** With distinct criteria, next and previous undo each other. */
  lemma NextPreviousInverse<T>(criteria: seq<T>, active: T)
    requires Distinct(criteria) && active in criteria
    ensures PreviousCriterion(criteria, NextCriterion(criteria, active)) == active
    ensures NextCriterion(criteria, PreviousCriterion(criteria, active)) == active
  {
    var k := IndexOf(criteria, active);
    var n := |criteria|;
    NextAt(criteria, k);
    PreviousAt(criteria, (k + 1) % n);
    PreviousAt(criteria, k);
    NextAt(criteria, (k + n - 1) % n);
  }

  /** Without distinctness the inverse can fail: with the repeated criterion
      below, previous does not undo next. */
  lemma RepeatedCriterionBreaksInverse()
    ensures PreviousCriterion(["a", "b", "a"], NextCriterion(["a", "b", "a"], "b")) != "b"
  {
    assert IndexOf(["a", "b", "a"], "b") == 1;
    assert NextCriterion(["a", "b", "a"], "b") == "a";
    assert IndexOf(["a", "b", "a"], "a") == 0;
  }

  /** Dropping the last character, as slicing with `[:-1]` does: the empty
      text stays empty. */
  function DropLast(text: string): (r: string)
    ensures |text| == 0 ==> r == text
    ensures |text| > 0 ==> r + [text[|text| - 1]] == text
  {
    if |text| == 0 then text else text[..|text| - 1]
  }

  /** One keystroke. While filtering, ESC and ENTER leave filtering mode
      (ESC also clears the text), BACKSPACE trims, UP and DOWN change the
      criterion, LEFT and RIGHT do nothing and every other key is typed.
      While browsing, F starts filtering, C clears the text, Q quits and
      every other key does nothing. */
  function Transition(s: State, key: Key): (r: (State, Outcome))
    requires Valid(s)
    ensures Valid(r.0) && r.0.criteria == s.criteria
    ensures r.0.isFiltering != s.isFiltering ==> r.1.SwitchLegend?
    ensures r.1.SwitchLegend? ==> r.1.to == LegendFor(r.0.isFiltering)
    ensures r.1 == Quit <==> !s.isFiltering && key == Char(QuitKey)
    ensures r.0.active != s.active ==> s.isFiltering && (key == Up || key == Down)
    ensures r.0.filter != s.filter ==> s.isFiltering || key == Char(ClearKey)
  {
    if s.isFiltering then
      match key
      case Escape => (s.(isFiltering := false, filter := ""), SwitchLegend(MainLegend))
      case Enter => (s.(isFiltering := false), SwitchLegend(MainLegend))
      case Backspace => (s.(filter := DropLast(s.filter)), Continue)
      case Up => (s.(active := PreviousCriterion(s.criteria, s.active)), Continue)
      case Down => (s.(active := NextCriterion(s.criteria, s.active)), Continue)
      case Left => (s, Continue)
      case Right => (s, Continue)
      case Char(c) => (s.(filter := s.filter + [c]), Continue)
    else if key == Char(FilterKey) then
      (s.(isFiltering := true), SwitchLegend(FilterLegend))
    else if key == Char(ClearKey) then
      (s.(filter := ""), Continue)
    else if key == Char(QuitKey) then
      (s, Quit)
    else
      (s, Continue)
  }

  /** ESC and ENTER while filtering: back to browsing with the main legend;
      ESC clears the text, ENTER keeps it; the criterion stays. */
  lemma LeaveFiltering(s: State)
    requires Valid(s) && s.isFiltering
    ensures Transition(s, Escape) == (State(false, "", s.criteria, s.active), SwitchLegend(MainLegend))
    ensures Transition(s, Enter) == (State(false, s.filter, s.criteria, s.active), SwitchLegend(MainLegend))
  {
  }

  /** Editing keys while filtering change only the text: BACKSPACE removes
      exactly the last character (nothing when empty), a character key
      appends exactly that character, LEFT and RIGHT change nothing. */
  lemma EditFilter(s: State, c: char)
    requires Valid(s) && s.isFiltering
    ensures |s.filter| > 0 ==> Transition(s, Backspace) == (s.(filter := s.filter[..|s.filter| - 1]), Continue)
    ensures |s.filter| == 0 ==> Transition(s, Backspace) == (s, Continue)
    ensures Transition(s, Char(c)) == (s.(filter := s.filter + [c]), Continue)
    ensures Transition(s, Left) == (s, Continue) && Transition(s, Right) == (s, Continue)
  {
  }

  /** UP and DOWN while filtering change only the active criterion, to the
      previous and the next one. */
  lemma ChangeCriterion(s: State)
    requires Valid(s) && s.isFiltering
    ensures Transition(s, Up) == (s.(active := PreviousCriterion(s.criteria, s.active)), Continue)
    ensures Transition(s, Down) == (s.(active := NextCriterion(s.criteria, s.active)), Continue)
  {
  }

  /** While browsing: F enters filtering mode keeping the text and shows the
      filter legend, C clears the text, Q quits, any other key does nothing. */
  lemma Browse(s: State, key: Key)
    requires Valid(s) && !s.isFiltering
    ensures Transition(s, Char(FilterKey)) == (s.(isFiltering := true), SwitchLegend(FilterLegend))
    ensures Transition(s, Char(ClearKey)) == (s.(filter := ""), Continue)
    ensures Transition(s, Char(QuitKey)) == (s, Quit)
    ensures key !in {Char(FilterKey), Char(ClearKey), Char(QuitKey)} ==> Transition(s, key) == (s, Continue)
  {
  }

  /** The outcome of feeding keystrokes to the machine until one quits. */
  datatype RunResult = RunResult(final: State, legend: Legend, consumed: nat, quit: bool)

  function Shift(r: RunResult, n: nat): RunResult
  {
    r.(consumed := r.consumed + n)
  }

  /** The keystroke loop: apply each key in turn, switching the legend when a
      key asks for it, and stop after a key that quits. */
  function Run(s: State, legend: Legend, keys: seq<Key>): (r: RunResult)
    requires Valid(s)
    ensures Valid(r.final) && r.final.criteria == s.criteria
    ensures r.consumed <= |keys|
    ensures !r.quit ==> r.consumed == |keys|
    ensures r.quit ==> r.consumed > 0 && keys[r.consumed - 1] == Char(QuitKey) && !r.final.isFiltering
    ensures legend == LegendFor(s.isFiltering) ==> r.legend == LegendFor(r.final.isFiltering)
    decreases |keys|
  {
    if keys == [] then RunResult(s, legend, 0, false)
    else
      var (t, outcome) := Transition(s, keys[0]);
      var next := if outcome.SwitchLegend? then outcome.to else legend;
      if outcome == Quit then RunResult(t, next, 1, true)
      else Shift(Run(t, next, keys[1..]), 1)
  }

  /** Running two key sequences one after the other is running their
      concatenation, when the first does not quit. */
  lemma {:induction false} RunConcat(s: State, legend: Legend, a: seq<Key>, b: seq<Key>)
    requires Valid(s) && !Run(s, legend, a).quit
    decreases |a|
    ensures var r := Run(s, legend, a);
            Run(s, legend, a + b) == Shift(Run(r.final, r.legend, b), |a|)
  {
    if a == [] {
      assert a + b == b;
    } else {
      var (t, outcome) := Transition(s, a[0]);
      var next := if outcome.SwitchLegend? then outcome.to else legend;
      assert (a + b)[0] == a[0];
      assert (a + b)[1..] == a[1..] + b;
      RunConcat(t, next, a[1..], b);
    }
  }

  /** Q while browsing stops the loop: the keys after it are never read. */
  lemma QuitStops(s: State, legend: Legend, rest: seq<Key>)
    requires Valid(s) && !s.isFiltering
    ensures Run(s, legend, [Char(QuitKey)] + rest) == RunResult(s, legend, 1, true)
  {
    assert ([Char(QuitKey)] + rest)[0] == Char(QuitKey);
  }

  /** The keystrokes that type a text. */
  function Typed(text: string): (keys: seq<Key>)
    ensures |keys| == |text|
    decreases |text|
  {
    if text == [] then [] else [Char(text[0])] + Typed(text[1..])
  }

  /** `n` presses of BACKSPACE. */
  function Backspaces(n: nat): (keys: seq<Key>)
    ensures |keys| == n
    ensures forall i :: 0 <= i < n ==> keys[i] == Backspace
  {
    if n == 0 then [] else [Backspace] + Backspaces(n - 1)
  }

  /** A key that neither quits nor switches the legend is one step of a run. */
  lemma RunStep(s: State, legend: Legend, keys: seq<Key>)
    requires Valid(s) && keys != [] && Transition(s, keys[0]).1 == Continue
    ensures Run(s, legend, keys) == Shift(Run(Transition(s, keys[0]).0, legend, keys[1..]), 1)
  {
  }

  /** Appending the first character and then the rest appends the text. */
  lemma AppendFirst(prefix: string, text: string)
    requires text != []
    ensures (prefix + [text[0]]) + text[1..] == prefix + text
  {
    assert [text[0]] + text[1..] == text;
  }

  /** While filtering, typing a text appends exactly that text (letters that
      are commands while browsing included). */
  lemma {:induction false} TypingAppends(s: State, text: string)
    requires Valid(s) && s.isFiltering
    ensures Run(s, FilterLegend, Typed(text)) == RunResult(s.(filter := s.filter + text), FilterLegend, |text|, false)
    decreases |text|
  {
    if text == [] {
      assert s.filter + text == s.filter;
    } else {
      var keys := Typed(text);
      assert keys == [Char(text[0])] + Typed(text[1..]);
      assert keys[0] == Char(text[0]) && keys[1..] == Typed(text[1..]);
      var t := s.(filter := s.filter + [text[0]]);
      assert Transition(s, keys[0]) == (t, Continue);
      RunStep(s, FilterLegend, keys);
      TypingAppends(t, text[1..]);
      AppendFirst(s.filter, text);
      assert t.(filter := t.filter + text[1..]) == s.(filter := s.filter + text);
    }
  }



  /** While filtering, `n` backspaces remove the last `n` characters (all of
      them when the text is shorter). */
  lemma {:induction false} ErasingTrims(s: State, n: nat)
    requires Valid(s) && s.isFiltering
    ensures var keep := if n <= |s.filter| then |s.filter| - n else 0;
            Run(s, FilterLegend, Backspaces(n)) == RunResult(s.(filter := s.filter[..keep]), FilterLegend, n, false)
    decreases n
  {
    if n == 0 {
      assert s.filter[..|s.filter|] == s.filter;
    } else {
      var t := s.(filter := DropLast(s.filter));
      assert Backspaces(n)[0] == Backspace;
      assert Backspaces(n)[1..] == Backspaces(n - 1);
      ErasingTrims(t, n - 1);
      var keep := if n <= |s.filter| then |s.filter| - n else 0;
      assert t.filter[..(if n - 1 <= |t.filter| then |t.filter| - (n - 1) else 0)] == s.filter[..keep];
    }
  }

  /** Typing a text and then pressing BACKSPACE once per character restores
      the state exactly. */
  lemma TypeThenErase(s: State, text: string)
    requires Valid(s) && s.isFiltering
    ensures Run(s, FilterLegend, Typed(text) + Backspaces(|text|)) == RunResult(s, FilterLegend, 2 * |text|, false)
  {
    TypingAppends(s, text);
    var t := s.(filter := s.filter + text);
    RunConcat(s, FilterLegend, Typed(text), Backspaces(|text|));
    ErasingTrims(t, |text|);
    assert t.filter[..|t.filter| - |text|] == s.filter;
  }

  /** F followed by ENTER leaves a browsing state exactly as it was, legend
      included; F followed by ESC only clears the text. */
  lemma FilterThenLeave(s: State)
    requires Valid(s) && !s.isFiltering
    ensures Run(s, MainLegend, [Char(FilterKey), Enter]) == RunResult(s, MainLegend, 2, false)
    ensures Run(s, MainLegend, [Char(FilterKey), Escape]) == RunResult(s.(filter := ""), MainLegend, 2, false)
  {
    var t := s.(isFiltering := true);
    assert [Char(FilterKey), Enter][1..] == [Enter];
    assert [Char(FilterKey), Escape][1..] == [Escape];
    assert Run(t, FilterLegend, [Enter]) == RunResult(s, MainLegend, 1, false);
    assert Run(t, FilterLegend, [Escape]) == RunResult(s.(filter := ""), MainLegend, 1, false);
  }

  /** Colour pairs of the criterion label. */
  datatype ColorPair = FilterCriteria | FilterCriteriaEditing

  /** What the filter box at the top of the screen shows. */
  datatype FilterBox = FilterBox(criterionLabel: string, criterionColor: ColorPair, valueLabel: string)

  /** The filter box for a state: the value label is the filter text; the
      criterion label reads `<criterion>=` while filtering or while a filter
      is set and is empty otherwise; the editing colour marks filtering mode. */
  function View(s: State): (b: FilterBox)
    ensures b.valueLabel == s.filter
    ensures (|s.filter| > 0 || s.isFiltering) ==> b.criterionLabel == s.active + "="
    ensures !(|s.filter| > 0 || s.isFiltering) ==> b.criterionLabel == ""
    ensures b.criterionColor == FilterCriteriaEditing <==> s.isFiltering
  {
    var criterion := s.active + "=";
    var shown := if |s.filter| > 0 then criterion else if s.isFiltering then criterion else "";
    FilterBox(shown, if s.isFiltering then FilterCriteriaEditing else FilterCriteria, s.filter)
  }

  /** The criterion label names the active criterion exactly when it is shown. */
  lemma LabelNamesCriterion(s: State)
    ensures var shown := View(s).criterionLabel;
            shown != "" <==> (|s.filter| > 0 || s.isFiltering)
    ensures var shown := View(s).criterionLabel;
            shown != "" ==> shown[..|shown| - 1] == s.active && shown[|shown| - 1] == '='
  {
    var shown := View(s).criterionLabel;
    if shown != "" {
      assert shown == s.active + "=";
      assert shown[..|shown| - 1] == s.active;
    }
  }
}

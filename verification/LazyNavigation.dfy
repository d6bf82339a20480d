/** Keyboard navigation through search results that are still loading: presses that cannot be
    followed yet are kept pending and followed when more results are there. */
module LazyNavigation {

  /** What is loaded, what is selected and how many presses are pending. */
  datatype Nav = Nav(loaded: seq<bool>, active: int, offset: nat, pending: int)

  /** Each result has this many options to select, a section of the page each; a result
      without any still takes one press. */
  type Options = seq<nat>

  predicate Fits(s: Nav, options: Options) {
    && |s.loaded| == |options| > 0
    && -1 <= s.active < |options| && s.pending >= 0
  }

  // ----- one press -----

  /** The selection moved: nothing is pending any more. */
  function Select(s: Nav, active: int, offset: nat): Nav {
    s.(active := active, offset := offset, pending := 0)
  }

  function Last(count: nat): nat {
    if count == 0 then 0 else count - 1
  }

  /** Down one option. */
  function Down(s: Nav, options: Options): (r: Nav)
    requires Fits(s, options)
    ensures Fits(r, options) && r.loaded == s.loaded
  {
    if s.active == -1 then
      if !s.loaded[0] then s.(pending := s.pending + 1) else Select(s, 0, 0)
    else if !s.loaded[s.active] then s.(pending := s.pending + 1)
    else if s.offset + 1 < options[s.active] then Select(s, s.active, s.offset + 1)
    else if s.active + 1 >= |options| then s
    else if !s.loaded[s.active + 1] then s.(pending := s.pending + 1)
    else Select(s, s.active + 1, 0)
  }

  /** Up one option. */
  function Up(s: Nav, options: Options): (r: Nav)
    requires Fits(s, options)
    ensures Fits(r, options) && r.loaded == s.loaded
  {
    if s.active == -1 then s
    else if s.offset > 0 then Select(s, s.active, s.offset - 1)
    else if s.active == 0 then Select(s, -1, 0)
    else if !s.loaded[s.active - 1] then s
    else Select(s, s.active - 1, Last(options[s.active - 1]))
  }

  /** The selected option is one that its result has. */
  predicate AtOption(s: Nav, options: Options)
    requires Fits(s, options)
  {
    s.offset <= if s.active == -1 then 0 else Last(options[s.active])
  }

  predicate SamePlace(s: Nav, r: Nav) {
    s.active == r.active && s.offset == r.offset
  }

  /** Up leads back from where a press down led, also to the last option of the result before. */
  lemma UpUndoesDown(s: Nav, options: Options)
    requires Fits(s, options) && AtOption(s, options)
    ensures AtOption(Down(s, options), options)
    ensures !SamePlace(s, Down(s, options)) ==> SamePlace(s, Up(Down(s, options), options))
  {
  }

  /** And down leads back from where a press up led, when the result that was left is loaded. */
  lemma DownUndoesUp(s: Nav, options: Options)
    requires Fits(s, options) && AtOption(s, options)
    ensures AtOption(Up(s, options), options)
    ensures !SamePlace(s, Up(s, options)) && s.loaded[s.active] ==> SamePlace(s, Down(Up(s, options), options))
  {
    if s.active == 0 && s.offset == 0 { assert Up(s, options).active == -1; }
  }

  // ----- a result has loaded -----

  /** Follow the pending presses as far as there are results. */
  function Settle(s: Nav, options: Options): (r: Nav)
    requires Fits(s, options)
    ensures Fits(r, options) && r.loaded == s.loaded
    decreases s.pending
  {
    if s.pending == 0 then s
    else if s.active >= 0 && s.loaded[s.active] && s.offset + 1 < options[s.active] then
      Settle(s.(offset := s.offset + 1, pending := s.pending - 1), options)
    else if s.active + 1 >= |options| then s.(pending := 0)
    else if s.loaded[s.active + 1] then
      Settle(s.(active := s.active + 1, offset := 0, pending := s.pending - 1), options)
    else s
  }

  /** The searchbox as an object. Results that were asked for, or came into view, load in the
      background. */
  class Searchbox {
    const options: Options
    var loaded: seq<bool>
    var activeIndex: int
    var activeOptionOffset: nat
    var pendingNavigation: int

    function State(): Nav
      reads this
    {
      Nav(loaded, activeIndex, activeOptionOffset, pendingNavigation)
    }

    /** `handleResults`, for new results of which none is loaded. */
    constructor (options: Options)
      requires options != []
      ensures this.options == options && Fits(State(), options)
      ensures State() == Start(options)
    {
      this.options := options;
      loaded, activeIndex, activeOptionOffset, pendingNavigation := seq(|options|, _ => false), 0, 0, 0;
    }

    method MoveSelection(step: int)
      requires Fits(State(), options) && (step == 1 || step == -1)
      modifies this
      ensures State() == if step == 1 then Down(old(State()), options) else Up(old(State()), options)
    {
      if step < 0 {
        if activeIndex == -1 { return; }
        if activeOptionOffset > 0 {
          activeOptionOffset, pendingNavigation := activeOptionOffset - 1, 0;
          return;
        }
        var previous := activeIndex - 1;
        if previous < 0 {
          activeIndex, activeOptionOffset, pendingNavigation := -1, 0, 0;
          return;
        }
        if !loaded[previous] { return; }
        activeIndex := previous;
        activeOptionOffset := Last(options[previous]);
        pendingNavigation := 0;
        return;
      }
      if activeIndex == -1 {
        if !loaded[0] {
          pendingNavigation := pendingNavigation + step;
          return;
        }
        activeIndex, activeOptionOffset, pendingNavigation := 0, 0, 0;
        return;
      }
      if !loaded[activeIndex] {
        pendingNavigation := pendingNavigation + step;
        return;
      }
      if activeOptionOffset + 1 < options[activeIndex] {
        activeOptionOffset, pendingNavigation := activeOptionOffset + 1, 0;
        return;
      }
      var next := activeIndex + 1;
      if next >= |options| { return; }
      if !loaded[next] {
        pendingNavigation := pendingNavigation + step;
        return;
      }
      activeIndex, activeOptionOffset, pendingNavigation := next, 0, 0;
    }

    /** `handleResultLoaded`. */
    method HandleResultLoaded()
      requires Fits(State(), options)
      modifies this
      ensures State() == Settle(old(State()), options)
    {
      if pendingNavigation == 0 { return; }
      var at, offset := activeIndex, activeOptionOffset;
      while pendingNavigation != 0
        invariant Fits(Nav(loaded, at, offset, pendingNavigation), options)
        invariant Settle(Nav(loaded, at, offset, pendingNavigation), options) == Settle(old(State()), options)
        decreases pendingNavigation
      {
        if at >= 0 && loaded[at] && offset + 1 < options[at] {
          offset, pendingNavigation := offset + 1, pendingNavigation - 1;
          continue;
        }
        var next := at + 1;
        if next >= |options| {
          pendingNavigation := 0;
          break;
        }
        if loaded[next] {
          at, offset, pendingNavigation := next, 0, pendingNavigation - 1;
        } else {
          break;
        }
      }
      if at != activeIndex || offset != activeOptionOffset {
        activeIndex, activeOptionOffset := at, offset;
      }
    }

    /** `load`, when it has come to an end: with data, or without after a failure. */
    method FinishLoading(i: nat, ok: bool)
      requires Fits(State(), options) && i < |options|
      modifies this
      ensures State() == After(old(State()), options, if ok then Loaded(i) else LoadFailed(i))
    {
      if ok { loaded := loaded[i := true]; }
      HandleResultLoaded();
    }
  }

  // ----- runs -----

  datatype Event = PressDown | PressUp | Loaded(i: nat) | LoadFailed(i: nat)

  function Start(options: Options): Nav {
    Nav(seq(|options|, _ => false), 0, 0, 0)
  }

  function After(s: Nav, options: Options, e: Event): (r: Nav)
    requires Fits(s, options)
    ensures Fits(r, options)
  {
    match e
    case PressDown => Down(s, options)
    case PressUp => Up(s, options)
    case Loaded(i) => if i < |options| then Settle(s.(loaded := s.loaded[i := true]), options) else s
    case LoadFailed(_) => Settle(s, options)
  }

  function Run(options: Options, events: seq<Event>): (r: Nav)
    requires options != []
    ensures Fits(r, options)
    decreases |events|
  {
    if events == [] then Start(options)
    else After(Run(options, events[..|events| - 1]), options, events[|events| - 1])
  }

  /** Where the presses lead from a place when everything is loaded. */
  function Eager(options: Options, active: int, offset: nat, presses: nat): (int, nat)
    requires -1 <= active < |options|
    decreases presses
  {
    if presses == 0 then (active, offset)
    else if active >= 0 && offset + 1 < options[active] then Eager(options, active, offset + 1, presses - 1)
    else if active + 1 < |options| then Eager(options, active + 1, 0, presses - 1)
    else (active, offset)
  }

  lemma {:induction false} OneMorePress(options: Options, active: int, offset: nat, presses: nat)
    requires -1 <= active < |options|
    ensures var (a, o) := Eager(options, active, offset, presses);
      -1 <= a < |options| && Eager(options, active, offset, presses + 1) == Eager(options, a, o, 1)
    decreases presses
  {
    if presses > 0 {
      if active >= 0 && offset + 1 < options[active] {
        OneMorePress(options, active, offset + 1, presses - 1);
      } else if active + 1 < |options| {
        OneMorePress(options, active + 1, 0, presses - 1);
      }
    }
  }

  function Presses(events: seq<Event>): nat {
    if events == [] then 0
    else Presses(events[..|events| - 1]) + if events[|events| - 1] == PressDown then 1 else 0
  }

  ghost predicate AllLoaded(s: Nav) {
    forall i | 0 <= i < |s.loaded| :: s.loaded[i]
  }

  /** Only presses of Down, and results that load or fail to. */
  ghost predicate OnlyDown(events: seq<Event>) {
    forall k | 0 <= k < |events| :: events[k] != PressUp
  }

  /** A press is only pending where it cannot be followed yet. */
  ghost predicate Blocked(s: Nav, options: Options)
    requires Fits(s, options)
  {
    s.active >= 0
    && (!s.loaded[s.active]
        || (s.offset + 1 >= options[s.active] && s.active + 1 < |options| && !s.loaded[s.active + 1]))
  }

  /** The selection and the pending presses lead to where the presses lead. Only the first
      result is ever selected before it has loaded. */
  ghost predicate Tracks(s: Nav, options: Options, presses: nat) {
    && Fits(s, options) && s.active >= 0
    && Eager(options, s.active, s.offset, s.pending) == Eager(options, 0, 0, presses)
    && (!s.loaded[s.active] ==> s.active == 0 && s.offset == 0)
    && (s.pending > 0 ==> Blocked(s, options))
  }

  lemma DownTracks(s: Nav, options: Options, presses: nat)
    requires Tracks(s, options, presses)
    ensures Tracks(Down(s, options), options, presses + 1)
  {
    OneMorePress(options, s.active, s.offset, s.pending);
    OneMorePress(options, 0, 0, presses);
  }

  /** Settling keeps where the presses lead, except that it passes over further options of
      the first result when that has not loaded. */
  lemma {:induction false} SettleTracks(s: Nav, options: Options)
    requires Fits(s, options) && s.active >= 0
    requires !s.loaded[s.active] ==> s.active == 0 && s.offset == 0 && options[0] <= 1
    ensures var r := Settle(s, options);
      && r.active >= 0
      && Eager(options, r.active, r.offset, r.pending) == Eager(options, s.active, s.offset, s.pending)
      && (!r.loaded[r.active] ==> r.active == 0 && r.offset == 0)
      && (r.pending > 0 ==> Blocked(r, options))
    decreases s.pending
  {
    if s.pending == 0 {
    } else if s.loaded[s.active] && s.offset + 1 < options[s.active] {
      SettleTracks(s.(offset := s.offset + 1, pending := s.pending - 1), options);
    } else if s.active + 1 < |options| && s.loaded[s.active + 1] {
      SettleTracks(s.(active := s.active + 1, offset := 0, pending := s.pending - 1), options);
    }
  }

  lemma StepTracks(s: Nav, options: Options, presses: nat, e: Event)
    requires Tracks(s, options, presses) && e != PressUp
    requires e == PressDown || options[0] <= 1 || After(s, options, e).loaded[0]
    ensures Tracks(After(s, options, e), options, presses + if e == PressDown then 1 else 0)
  {
    match e
    case PressDown => DownTracks(s, options, presses);
    case Loaded(i) => if i < |options| { SettleTracks(s.(loaded := s.loaded[i := true]), options); }
    case LoadFailed(_) => SettleTracks(s, options);
    case PressUp =>
  }

  /** Nothing but presses happens before the first result has loaded. */
  ghost predicate FirstLoadsFirst(events: seq<Event>) {
    events == []
    || var before, e := events[..|events| - 1], events[|events| - 1];
       FirstLoadsFirst(before) && (e == PressDown || e == Loaded(0) || Loaded(0) in before)
  }

  lemma {:induction false} RunTracks(options: Options, events: seq<Event>)
    requires options != [] && OnlyDown(events) && (options[0] <= 1 || FirstLoadsFirst(events))
    ensures Tracks(Run(options, events), options, Presses(events))
    ensures Loaded(0) in events ==> Run(options, events).loaded[0]
    decreases |events|
  {
    if events != [] {
      var before, e := events[..|events| - 1], events[|events| - 1];
      assert events == before + [e];
      RunTracks(options, before);
      StepTracks(Run(options, before), options, Presses(before), e);
    }
  }

  /** Once everything has loaded, nothing is pending and the selection is where the presses
      would have led at once. */
  ghost predicate Catches(options: Options, events: seq<Event>)
    requires options != []
  {
    var s := Run(options, events);
    AllLoaded(s) ==> s.pending == 0 && (s.active, s.offset) == Eager(options, 0, 0, Presses(events))
  }

  lemma LazyIsEager(options: Options, events: seq<Event>)
    requires options != [] && OnlyDown(events) && (options[0] <= 1 || FirstLoadsFirst(events))
    ensures Catches(options, events)
  {
    RunTracks(options, events);
  }

  /** With one option each, the presses lead down one result each, up to the last. */
  lemma {:induction false} OneOptionEach(options: Options, active: nat, presses: nat)
    requires active < |options| && forall i | 0 <= i < |options| :: options[i] <= 1
    ensures Eager(options, active, 0, presses)
         == (if active + presses < |options| then active + presses else |options| - 1, 0)
    decreases presses
  {
    if presses > 0 && active + 1 < |options| { OneOptionEach(options, active + 1, presses - 1); }
  }

  /** How many options there are; a result without any counts as one. */
  function Total(options: Options): nat {
    if options == [] then 0
    else Total(options[..|options| - 1]) + if options[|options| - 1] == 0 then 1 else options[|options| - 1]
  }

  /** The number of an option among all options of all results. */
  function Number(options: Options, active: nat, offset: nat): nat
    requires active < |options|
  {
    Total(options[..active]) + offset
  }

  lemma TotalNext(options: Options, active: nat)
    requires active < |options|
    ensures Total(options[..active + 1]) == Total(options[..active]) + Last(options[active]) + 1
  {
    assert options[..active + 1][..active] == options[..active];
  }

  /** The presses lead down one option each, through all options of all results in their order, up to
      the last one. */
  lemma {:induction false} PressesCount(options: Options, active: nat, offset: nat, presses: nat)
    requires active < |options| && offset <= Last(options[active])
    ensures
      var (a, o) := Eager(options, active, offset, presses);
      && 0 <= a < |options| && o <= Last(options[a])
      && Number(options, a, o) == (if Number(options, active, offset) + presses < Total(options)
                                   then Number(options, active, offset) + presses else Total(options) - 1)
    decreases presses
  {
    TotalNext(options, active);
    if active + 1 == |options| {
      assert options[..active + 1] == options;
    } else {
      TotalNext(options, active + 1);
      TotalGrows(options, active + 1);
    }
    if presses > 0 {
      if offset + 1 < options[active] {
        PressesCount(options, active, offset + 1, presses - 1);
      } else if active + 1 < |options| {
        PressesCount(options, active + 1, 0, presses - 1);
      }
    }
  }

  lemma {:induction false} TotalGrows(options: Options, k: nat)
    requires k < |options|
    ensures Total(options[..k]) < Total(options)
    decreases |options| - k
  {
    TotalNext(options, k);
    if k + 1 == |options| { assert options[..k + 1] == options; } else { TotalGrows(options, k + 1); }
  }

  // ----- exactly when -----

  function LoadAll(n: nat): seq<Event> {
    if n == 0 then [] else LoadAll(n - 1) + [Loaded(n - 1)]
  }

  /** Loading while nothing is pending moves nothing. */
  lemma IdleLoad(options: Options, events: seq<Event>, i: nat, more: seq<Event>)
    requires options != [] && i < |options| && Run(options, events).pending == 0
    requires more == events + [Loaded(i)]
    ensures var s := Run(options, events); Run(options, more) == s.(loaded := s.loaded[i := true])
    ensures Presses(more) == Presses(events)
    ensures OnlyDown(events) ==> OnlyDown(more)
  {
    assert more[..|more| - 1] == events;
  }

  lemma {:induction false} LoadAllLoads(options: Options, events: seq<Event>, n: nat, more: seq<Event>)
    requires options != [] && n <= |options| && Run(options, events).pending == 0 && more == events + LoadAll(n)
    ensures var s, r := Run(options, events), Run(options, more);
      && (r.active, r.offset, r.pending) == (s.active, s.offset, 0)
      && (forall i | 0 <= i < n :: r.loaded[i])
    ensures Presses(more) == Presses(events)
    ensures OnlyDown(events) ==> OnlyDown(more)
    decreases n
  {
    if n == 0 {
      assert more == events;
    } else {
      var before := events + LoadAll(n - 1);
      LoadAllLoads(options, events, n - 1, before);
      assert more == before + [Loaded(n - 1)];
      IdleLoad(options, before, n - 1, more);
    }
  }

  /** The first result has several options: a press is pending on it, and then another result
      comes to its end first, so that the press goes past the other options of the first. */
  lemma Overtaken(options: Options) returns (events: seq<Event>)
    requires options != [] && options[0] >= 2
    ensures OnlyDown(events) && !Catches(options, events)
  {
    var first := if |options| == 1 then LoadFailed(0) else Loaded(1);
    var start := [PressDown, first];
    assert start[..1] == [PressDown] && [PressDown][..0] == [];
    var s := Run(options, [PressDown]);
    assert s == Start(options).(pending := 1);
    var t := Run(options, start);
    assert t == After(s, options, first);
    if |options| > 1 {
      var u := s.(loaded := s.loaded[1 := true]);
      assert t == Settle(u, options);
      assert Settle(u, options) == Settle(u.(active := 1, pending := 0), options);
    }
    assert t.pending == 0 && t.offset == 0;
    events := start + LoadAll(|options|);
    LoadAllLoads(options, start, |options|, events);
    assert Presses([PressDown]) == 1 && Presses(start) == 1;
    assert Eager(options, 0, 0, 1) == (0, 1);
  }

  /** Navigation ends where it would have with everything loaded from the start, whatever
      loads when, exactly if the first result has at most one option. */
  lemma LazyIsEagerExactly(options: Options)
    requires options != []
    ensures (forall events | OnlyDown(events) :: Catches(options, events)) <==> options[0] <= 1
  {
    if options[0] <= 1 {
      forall events | OnlyDown(events) ensures Catches(options, events) {
        LazyIsEager(options, events);
      }
    } else {
      var events := Overtaken(options);
    }
  }
}

/** MIDI pad bindings: `MIDILearnStore.load` and the learn state machine of
    `MIDIPaneActivator`. In learn mode the next sixteen accepted presses are
    bound to slots 1 to 16 in order and then saved; outside learn mode a
    press that matches a binding triggers its slot. */
module Midi {
  import opened Text

  /** `UInt8`. */
  type Byte = x: int | 0 <= x < 256

  /** `MIDIBinding`: the message kind (the status byte's upper nibble), the
      first data byte and the channel. */
  datatype Binding = Binding(statusNibble: Byte, data1: Byte, channel: Byte)

  /** `StoredMIDIBinding`. */
  datatype StoredBinding = StoredBinding(slot: int, binding: Binding)

  const SlotCount: int := 16

  predicate InSlots(k: int) { 1 <= k <= SlotCount }

  // ---------------------------------------------------------------------------
  // MIDILearnStore.load

  /** The bindings the stored items give, the later of two items for the same
      slot winning; items for slots outside 1 to 16 are dropped. */
  function Loaded(items: seq<StoredBinding>): (r: map<int, Binding>)
    ensures forall k :: k in r ==> InSlots(k)
    decreases |items|
  {
    if |items| == 0 then map[]
    else
      var m := Loaded(items[..|items| - 1]);
      var item := items[|items| - 1];
      if InSlots(item.slot) then m[item.slot := item.binding] else m
  }

  /** The result of `load` for the decoded user-defaults entry (none when
      the entry is missing or does not decode). */
  function LoadResult(stored: Option<seq<StoredBinding>>): map<int, Binding>
  {
    match stored
    case None => map[]
    case Some(items) => Loaded(items)
  }

  /** `MIDILearnStore.load`. */
  method Load(stored: Option<seq<StoredBinding>>) returns (result: map<int, Binding>)
    ensures result == LoadResult(stored)
  {
    result := map[];
    if stored.None? {
      return;
    }
    var items := stored.value;
    for i := 0 to |items|
      invariant result == Loaded(items[..i])
    {
      assert items[..i + 1][..i] == items[..i];
      var item := items[i];
      if 1 <= item.slot <= 16 {
        result := result[item.slot := item.binding];
      }
    }
    assert items[..|items|] == items;
  }

  /** A slot is bound exactly when some item names it and it is in 1 to 16. */
  lemma {:induction false} LoadedSlot(items: seq<StoredBinding>, k: int)
    ensures k in Loaded(items) <==> InSlots(k) && exists i :: 0 <= i < |items| && items[i].slot == k
    decreases |items|
  {
    if |items| > 0 {
      var init := items[..|items| - 1];
      LoadedSlot(init, k);
      if InSlots(k) && (exists i :: 0 <= i < |items| && items[i].slot == k) && items[|items| - 1].slot != k {
        var i :| 0 <= i < |items| && items[i].slot == k;
        assert i < |init| && init[i] == items[i];
      }
      if k in Loaded(items) && items[|items| - 1].slot != k {
        var i :| 0 <= i < |init| && init[i].slot == k;
        assert items[i] == init[i];
      }
    }
  }

  /** A bound slot holds the binding of the last item that names it. */
  lemma {:induction false} LoadedLastWins(items: seq<StoredBinding>, i: nat)
    requires i < |items| && InSlots(items[i].slot)
    requires forall j :: i < j < |items| ==> items[j].slot != items[i].slot
    ensures items[i].slot in Loaded(items) && Loaded(items)[items[i].slot] == items[i].binding
    decreases |items|
  {
    if i < |items| - 1 {
      var init := items[..|items| - 1];
      assert init[i] == items[i];
      forall j | i < j < |init| ensures init[j].slot != init[i].slot {
        assert init[j] == items[j];
      }
      LoadedLastWins(init, i);
    }
  }

  // ---------------------------------------------------------------------------
  // The learn state machine

  /** What the activator reports through its callbacks: `onStatus`,
      `onLearnStateChanged` (the `didSet` of `learning`), `onSlotTriggered`,
      and the bindings handed to `MIDILearnStore.save`. */
  datatype Event = Status(text: string) | LearnChanged(learning: bool) | Triggered(slot: int) | Saved(bindings: map<int, Binding>)

  /** The activator's learn fields. `lastAt` is the time of the last learned
      press in milliseconds, none for `distantPast`. */
  datatype Learner = Learner(bindings: map<int, Binding>, learnStep: int, learning: bool,
                             lastAt: Option<int>, lastBinding: Option<Binding>)

  predicate ValidLearner(s: Learner)
  {
    InSlots(s.learnStep) && forall k :: k in s.bindings ==> InSlots(k)
  }

  /** `status & 0xF0` */
  function Nibble(status: Byte): Byte { status / 16 * 16 }

  /** `status & 0x0F` */
  function ChannelOf(status: Byte): Byte { status % 16 }

  /** Note On and Control Change with a non-zero value are the only messages
      acted on. */
  predicate Accepted(status: Byte, data2: Byte)
  {
    (Nibble(status) == 0x90 || Nibble(status) == 0xB0) && data2 > 0
  }

  function Incoming(status: Byte, data1: Byte): Binding
  {
    Binding(Nibble(status), data1, ChannelOf(status))
  }

  /** Milliseconds within which a repeat of the last learned press is
      ignored. */
  const DebounceMs: int := 120

  predicate Debounced(s: Learner, incoming: Binding, now: int)
  {
    s.lastBinding == Some(incoming) && s.lastAt.Some? && now - s.lastAt.value < DebounceMs
  }

  function LearnedText(incoming: Binding, step: int): string
  {
    "Learned " + (if incoming.statusNibble == 0xB0 then "CC" else "Note")
    + " data1=" + NatToString(incoming.data1) + " ch=" + NatToString(incoming.channel + 1)
    + " -> slot " + IntToString(step)
  }

  function PromptText(step: int): string
  {
    "MIDI Learn " + IntToString(step) + "/16: press button"
  }

  /** A press in learn mode: a repeat within the debounce window does
      nothing; otherwise the press is bound to the current slot, and after
      the sixteenth slot the bindings are saved and learn mode ends. */
  function Learn(s: Learner, incoming: Binding, now: int): (r: (Learner, seq<Event>))
    ensures Debounced(s, incoming, now) <==> r.1 == []
    ensures Debounced(s, incoming, now) ==> r.0 == s
    ensures !Debounced(s, incoming, now) ==>
      r.0.bindings == s.bindings[s.learnStep := incoming] && r.0.lastAt == Some(now) &&
      r.0.lastBinding == Some(incoming) && r.1[0] == Status(LearnedText(incoming, s.learnStep)) &&
      (Saved(r.0.bindings) in r.1 <==> s.learnStep >= 16)
    ensures 1 <= s.learnStep <= 16 ==> 1 <= r.0.learnStep <= 16
  {
    if Debounced(s, incoming, now) then (s, [])
    else
      var b := s.bindings[s.learnStep := incoming];
      var learned := Status(LearnedText(incoming, s.learnStep));
      if s.learnStep >= 16 then
        (Learner(b, 1, false, Some(now), Some(incoming)),
         [learned, Saved(b), LearnChanged(false), Status("MIDI learn saved (16)")])
      else
        (Learner(b, s.learnStep + 1, s.learning, Some(now), Some(incoming)),
         [learned, Status(PromptText(s.learnStep + 1))])
  }

  /** `toggleLearn`: cancels learn mode, or starts it at slot 1 with the
      debounce memory cleared. */
  function Toggle(s: Learner): (r: (Learner, seq<Event>, bool))
    ensures r.2 == r.0.learning == !s.learning
    ensures r.0.learnStep == 1 && r.0.bindings == s.bindings
    ensures |r.1| > 0 && r.1[0] == LearnChanged(r.2)
    ensures r.2 ==> r.0.lastAt.None? && r.0.lastBinding.None?
  {
    if s.learning then
      (s.(learning := false, learnStep := 1), [LearnChanged(false), Status("MIDI Learn canceled")], false)
    else
      (s.(learning := true, learnStep := 1, lastBinding := None, lastAt := None),
       [LearnChanged(true), Status("MIDI Learn 1/16: press button")], true)
  }

  /** The slots bound to a press. */
  function Matching(bindings: map<int, Binding>, incoming: Binding): set<int>
  {
    set k | k in bindings && bindings[k] == incoming
  }

  class MIDIPaneActivator {
    var bindings: map<int, Binding>
    var learnStep: int
    var learning: bool
    var lastLearnEventAt: Option<int>
    var lastLearnBinding: Option<Binding>
    /** The callbacks made so far, oldest first. */
    var events: seq<Event>

    function State(): Learner
      reads this
    {
      Learner(bindings, learnStep, learning, lastLearnEventAt, lastLearnBinding)
    }

    ghost predicate Valid()
      reads this
    {
      ValidLearner(State())
    }

    /** The initial fields, with the bindings loaded from the store. */
    constructor (stored: Option<seq<StoredBinding>>)
      ensures Valid() && events == []
      ensures State() == Learner(LoadResult(stored), 1, false, None, None)
    {
      var loaded := Load(stored);
      bindings := loaded;
      learnStep := 1;
      learning := false;
      lastLearnEventAt := None;
      lastLearnBinding := None;
      events := [];
    }

    /** `toggleLearn`. */
    method ToggleLearn() returns (on: bool)
      requires Valid()
      modifies this
      ensures Valid()
      ensures State() == Toggle(old(State())).0
      ensures events == old(events) + Toggle(old(State())).1
      ensures on == Toggle(old(State())).2
    {
      if learning {
        learning := false;
        events := events + [LearnChanged(false)];
        learnStep := 1;
        events := events + [Status("MIDI Learn canceled")];
        return false;
      }
      learning := true;
      events := events + [LearnChanged(true)];
      learnStep := 1;
      lastLearnBinding := None;
      lastLearnEventAt := None;
      events := events + [Status("MIDI Learn 1/16: press button")];
      return true;
    }

    /** `handleMessage`, with the clock reading `now` in milliseconds. A
        press outside learn mode triggers one of the slots bound to it (the
        source takes the first in dictionary order, which is unspecified). */
    method HandleMessage(status: Byte, data1: Byte, data2: Byte, now: int)
      requires Valid()
      modifies this
      ensures Valid()
      ensures !Accepted(status, data2) ==> State() == old(State()) && events == old(events)
      ensures Accepted(status, data2) && old(learning) ==>
        var (s, evs) := Learn(old(State()), Incoming(status, data1), now);
        State() == s && events == old(events) + evs
      ensures Accepted(status, data2) && !old(learning) ==>
        && State() == old(State())
        && (Matching(bindings, Incoming(status, data1)) == {} ==> events == old(events))
        && (Matching(bindings, Incoming(status, data1)) != {} ==>
              exists slot :: slot in Matching(bindings, Incoming(status, data1)) && events == old(events) + [Triggered(slot)])
    {
      var nibble := status / 16 * 16;
      if !((nibble == 0x90 || nibble == 0xB0) && data2 > 0) {
        return;
      }
      var channel := status % 16;
      var incoming := Binding(nibble, data1, channel);
      if learning {
        LearnPress(incoming, now);
        return;
      }
      var matching := Matching(bindings, incoming);
      EmptyOrMember(matching);
      if matching != {} {
        var slot :| slot in matching;
        events := events + [Triggered(slot)];
      }
    }

    /** The learn-mode branch of `handleMessage`. */
    method LearnPress(incoming: Binding, now: int)
      requires Valid() && learning
      modifies this
      ensures Valid()
      ensures State() == Learn(old(State()), incoming, now).0
      ensures events == old(events) + Learn(old(State()), incoming, now).1
    {
      if Some(incoming) == lastLearnBinding && lastLearnEventAt.Some? && now - lastLearnEventAt.value < DebounceMs {
        return;
      }
      lastLearnBinding := Some(incoming);
      lastLearnEventAt := Some(now);
      bindings := bindings[learnStep := incoming];
      var kind := if incoming.statusNibble == 0xB0 then "CC" else "Note";
      var learned := "Learned " + kind + " data1=" + NatToString(incoming.data1)
        + " ch=" + NatToString(incoming.channel + 1) + " -> slot " + IntToString(learnStep);
      // the callbacks of this press, in order
      var out := [Status(learned)];
      if learnStep >= 16 {
        out := out + [Saved(bindings)];
        learning := false;
        out := out + [LearnChanged(false)];
        learnStep := 1;
        out := out + [Status("MIDI learn saved (16)")];
        assert out == [Status(learned), Saved(bindings), LearnChanged(false), Status("MIDI learn saved (16)")];
      } else {
        learnStep := learnStep + 1;
        out := out + [Status("MIDI Learn " + IntToString(learnStep) + "/16: press button")];
      }
      events := events + out;
    }
  }

  // ---------------------------------------------------------------------------
  // Properties of the learn state machine

  /** A press keeps the step within 1 to 16 and the bindings within the
      slots. */
  lemma LearnKeepsValid(s: Learner, incoming: Binding, now: int)
    requires ValidLearner(s)
    ensures ValidLearner(Learn(s, incoming, now).0)
  {
  }

  /** Pressing one pad per slot after learn mode starts. The presses are
      spaced so that none is debounced. */
  function Session(s: Learner, presses: seq<(Binding, int)>): (Learner, seq<Event>)
    decreases |presses|
  {
    if |presses| == 0 then (s, [])
    else
      var (u, e1) := Session(s, presses[..|presses| - 1]);
      var (t, e2) := Learn(u, presses[|presses| - 1].0, presses[|presses| - 1].1);
      (t, e1 + e2)
  }

  /** Press times that are increasing by at least the debounce window. */
  predicate Spaced(presses: seq<(Binding, int)>)
  {
    forall i :: 0 < i < |presses| ==> presses[i].1 - presses[i - 1].1 >= DebounceMs
  }

  /** After `k` spaced presses in learn mode, started at slot 1 with the
      debounce memory cleared, slot `j` holds the `j`-th press for every
      `j <= k`, and while `k < 16` the machine waits for slot `k + 1`. */
  lemma {:induction false} SessionFills(s: Learner, presses: seq<(Binding, int)>, k: nat)
    requires ValidLearner(s) && s.learning && s.learnStep == 1 && s.lastAt.None?
    requires k == |presses| <= 15 && Spaced(presses)
    ensures var t := Session(s, presses).0;
      && t.learning && t.learnStep == k + 1
      && (forall j :: 1 <= j <= k ==> j in t.bindings && t.bindings[j] == presses[j - 1].0)
      && (k > 0 ==> t.lastAt == Some(presses[k - 1].1))
    decreases k
  {
    if k > 0 {
      var init, last := presses[..k - 1], presses[k - 1];
      assert Spaced(init);
      SessionFills(s, init, k - 1);
      var u := Session(s, init).0;
      assert k > 1 ==> u.lastAt == Some(presses[k - 2].1) && last.1 - presses[k - 2].1 >= DebounceMs;
      FillStep(u, last.0, last.1);
      forall j | 1 <= j < k ensures j in u.bindings && u.bindings[j] == presses[j - 1].0 {
        assert presses[j - 1] == init[j - 1];
      }
      FillsCombine(u.bindings, Session(s, presses).0.bindings, presses);
    }
  }

  /** The bindings after slot `k` is filled, from those before. */
  lemma FillsCombine(u: map<int, Binding>, t: map<int, Binding>, presses: seq<(Binding, int)>)
    requires |presses| >= 1
    requires forall j :: 1 <= j < |presses| ==> j in u && u[j] == presses[j - 1].0
    requires t == u[|presses| := presses[|presses| - 1].0]
    ensures forall j :: 1 <= j <= |presses| ==> j in t && t[j] == presses[j - 1].0
  {
  }

  /** A press that is not debounced, for a slot below 16. */
  lemma FillStep(u: Learner, b: Binding, now: int)
    requires u.learning && u.learnStep < 16 && !Debounced(u, b, now)
    ensures var t := Learn(u, b, now).0;
      && t.learning && t.learnStep == u.learnStep + 1 && t.bindings == u.bindings[u.learnStep := b]
      && t.lastAt == Some(now)
  {
  }

  /** The sixteenth spaced press ends learn mode: all sixteen slots hold the
      presses in order, the bindings are saved, and the step is back at 1. */
  lemma SessionCompletes(s: Learner, presses: seq<(Binding, int)>)
    requires ValidLearner(s) && s.learning && s.learnStep == 1 && s.lastAt.None?
    requires |presses| == 16 && Spaced(presses)
    ensures var (t, evs) := Session(s, presses);
      && !t.learning && t.learnStep == 1
      && (forall j :: 1 <= j <= 16 ==> j in t.bindings && t.bindings[j] == presses[j - 1].0)
      && (forall j :: j in t.bindings ==> 1 <= j <= 16)
      && Saved(t.bindings) in evs
  {
    var init, last := presses[..15], presses[15];
    assert Spaced(init);
    SessionFills(s, init, 15);
    SessionValid(s, init);
    var u := Session(s, init).0;
    LastPress(u, last.0, last.1);
    SessionValid(s, presses);
    forall j | 1 <= j < 16 ensures j in u.bindings && u.bindings[j] == presses[j - 1].0 {
      assert presses[j - 1] == init[j - 1];
    }
    FillsCombine(u.bindings, Session(s, presses).0.bindings, presses);
  }

  /** The press for slot 16. */
  lemma LastPress(u: Learner, b: Binding, now: int)
    requires u.learning && u.learnStep == 16 && !Debounced(u, b, now)
    ensures var (t, evs) := Learn(u, b, now);
      && !t.learning && t.learnStep == 1 && t.bindings == u.bindings[16 := b]
      && Saved(t.bindings) in evs
  {
  }

  lemma {:induction false} SessionValid(s: Learner, presses: seq<(Binding, int)>)
    requires ValidLearner(s)
    ensures ValidLearner(Session(s, presses).0)
    decreases |presses|
  {
    if |presses| > 0 {
      var init := presses[..|presses| - 1];
      SessionValid(s, init);
      LearnKeepsValid(Session(s, init).0, presses[|presses| - 1].0, presses[|presses| - 1].1);
    }
  }
}

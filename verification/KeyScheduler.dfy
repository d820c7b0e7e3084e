/** Pacing key images onto a Stream Deck: one changed key per due flush, round
    robin, always towards the newest complete state. */
module KeyScheduler {
  import opened Bytes

  const STATUS_SLOTS: nat := 8

  /** Red, green and blue packed into 24 bits, and brightness in percent. */
  datatype Color = Color(rgb: nat, percent: nat)

  type Colors = c: seq<Option<Color>> | |c| == STATUS_SLOTS witness seq(8, _ => None)

  type Names = a: seq<Option<string>> | |a| == STATUS_SLOTS witness seq(8, _ => None)

  /** A complete state of the keys. */
  datatype Keys = Keys(colors: Colors, agents: Names)

  /** `shown` is what was last written to each key; `next` is where the search
      for a changed key starts. */
  datatype Deck = Deck(shown: Keys, pending: Option<Keys>, next: nat)

  // ---- Status updates ----

  /** The fields read from one status entry. */
  datatype Update = Update(
    id: Option<nat>, color: Option<nat>, brightness: Option<real>, effect: Option<nat>, agent: Option<string>)

  /** The double-precision machine epsilon, 2^-52. */
  const EPSILON: real := 1.0 / 4503599627370496.0

  function Brightness(u: Update): real {
    if u.brightness.None? || u.brightness.value > 1.0 then 1.0
    else if u.brightness.value < 0.0 then 0.0
    else u.brightness.value
  }

  function Percent(u: Update): (p: nat)
    ensures p <= 100
  {
    (Brightness(u) * 100.0).Floor
  }

  predicate TurnsOff(u: Update) {
    u.effect == Some(0) || Brightness(u) <= EPSILON
  }

  function UpdateKeys(k: Keys, u: Update): Keys {
    if u.id.None? || u.id.value >= STATUS_SLOTS then k
    else if TurnsOff(u) then Keys(k.colors[u.id.value := None], k.agents[u.id.value := None])
    else
      var rgb := if u.color.Some? then u.color.value % 0x100_0000 else 0;
      Keys(k.colors[u.id.value := Some(Color(rgb, Percent(u)))], k.agents[u.id.value := u.agent])
  }

  function UpdateAll(k: Keys, updates: seq<Update>): Keys
    decreases |updates|
  {
    if updates == [] then k else UpdateAll(UpdateKeys(k, updates[0]), updates[1..])
  }

  /** What the deck is heading for: pending, or else what it shows. */
  function Target(d: Deck): Keys {
    if d.pending.Some? then d.pending.value else d.shown
  }

  // ---- Flushing ----

  predicate OutOfDate(shown: Keys, target: Keys, i: nat)
    requires i < STATUS_SLOTS
  {
    shown.colors[i] != target.colors[i] || shown.agents[i] != target.agents[i]
  }

  /** The key at an offset from the start of the search. */
  function KeyAt(next: nat, offset: nat): (i: nat)
    ensures i < STATUS_SLOTS
  {
    (next + offset) % STATUS_SLOTS
  }

  /** The first changed key at or after an offset, cyclically. */
  function FirstChanged(shown: Keys, target: Keys, next: nat, offset: nat): (i: Option<nat>)
    requires offset <= STATUS_SLOTS
    ensures i.Some? ==> i.value < STATUS_SLOTS && OutOfDate(shown, target, i.value)
    decreases STATUS_SLOTS - offset
  {
    if offset == STATUS_SLOTS then None
    else if OutOfDate(shown, target, KeyAt(next, offset)) then Some(KeyAt(next, offset))
    else FirstChanged(shown, target, next, offset + 1)
  }

  function WriteKey(shown: Keys, target: Keys, i: nat): Keys
    requires i < STATUS_SLOTS
  {
    Keys(shown.colors[i := target.colors[i]], shown.agents[i := target.agents[i]])
  }

  datatype Flushed = Flushed(deck: Deck, written: Option<nat>)

  /** One flush: `due` when the pacing interval has passed, `ok` when encoding
      and writing the image succeed. */
  function Flush(d: Deck, due: bool, ok: bool): Flushed {
    if d.pending.None? || !due then Flushed(d, None)
    else
      var target := d.pending.value;
      match FirstChanged(d.shown, target, d.next, 0)
      case None => Flushed(d.(pending := None), None)
      case Some(i) =>
        if !ok then Flushed(d, None)
        else Flushed(Deck(WriteKey(d.shown, target, i), d.pending, (i + 1) % STATUS_SLOTS), Some(i))
  }

  /** The state held in place by the device. */
  class KeyWriter {
    const lastColors: array<Option<Color>>
    const lastAgents: array<Option<string>>
    var pending: Option<Keys>
    var nextKeyWriteIndex: nat

    ghost predicate Valid()
      reads this
    {
      && lastColors.Length == STATUS_SLOTS && lastAgents.Length == STATUS_SLOTS
      && lastColors as object != lastAgents && nextKeyWriteIndex < STATUS_SLOTS
    }

    ghost function View(): Deck
      requires Valid()
      reads this, lastColors, lastAgents
    {
      Deck(Keys(lastColors[..], lastAgents[..]), pending, nextKeyWriteIndex)
    }

    constructor ()
      ensures Valid() && View().pending == None && View().next == 0
      ensures forall i | 0 <= i < STATUS_SLOTS :: View().shown.colors[i] == None && View().shown.agents[i] == None
    {
      lastColors := new Option<Color>[STATUS_SLOTS](_ => None);
      lastAgents := new Option<string>[STATUS_SLOTS](_ => None);
      pending, nextKeyWriteIndex := None, 0;
    }

    method FindChanged(target: Keys) returns (found: Option<nat>)
      requires Valid()
      ensures found == FirstChanged(View().shown, target, nextKeyWriteIndex, 0)
    {
      var offset := 0;
      while offset < STATUS_SLOTS
        invariant offset <= STATUS_SLOTS
        invariant FirstChanged(View().shown, target, nextKeyWriteIndex, 0)
          == FirstChanged(View().shown, target, nextKeyWriteIndex, offset)
      {
        var index := (nextKeyWriteIndex + offset) % STATUS_SLOTS;
        if lastColors[index] != target.colors[index] || lastAgents[index] != target.agents[index] {
          return Some(index);
        }
        offset := offset + 1;
      }
      return None;
    }

    method FlushKeyStatus(due: bool, ok: bool) returns (written: Option<nat>)
      requires Valid()
      modifies this, lastColors, lastAgents
      ensures Valid() && Flushed(View(), written) == Flush(old(View()), due, ok)
    {
      hide FirstChanged;
      if pending.None? || !due {
        return None;
      }
      var target := pending.value;
      written := FindChanged(target);
      if written.None? {
        pending := None;
        return;
      }
      if !ok {
        return None;
      }
      var index := written.value;
      lastColors[index] := target.colors[index];
      lastAgents[index] := target.agents[index];
      nextKeyWriteIndex := (index + 1) % STATUS_SLOTS;
    }

    method ApplyThreadStatus(updates: seq<Update>, due: bool, ok: bool) returns (written: Option<nat>)
      requires Valid()
      modifies this, lastColors, lastAgents
      ensures Valid()
      ensures Flushed(View(), written) == Do(old(View()), Apply(updates, due, ok))
    {
      hide Flush;
      var target := if pending.Some? then pending.value else Keys(lastColors[..], lastAgents[..]);
      ghost var start := target;
      var i := 0;
      assert updates[0..] == updates;
      while i < |updates|
        invariant i <= |updates|
        invariant UpdateAll(target, updates[i..]) == UpdateAll(start, updates)
      {
        assert updates[i..][0] == updates[i] && updates[i..][1..] == updates[i + 1..];
        target := UpdateKeys(target, updates[i]);
        i := i + 1;
      }
      pending := Some(target);
      written := FlushKeyStatus(due, ok);
    }
  }

  // ---- Runs ----

  datatype Act = Apply(updates: seq<Update>, due: bool, ok: bool) | Poll(due: bool, ok: bool)

  /** The deck as the flush of an act finds it. */
  function Prepared(d: Deck, act: Act): Deck {
    if act.Apply? then d.(pending := Some(UpdateAll(Target(d), act.updates))) else d
  }

  function Do(d: Deck, act: Act): Flushed {
    Flush(Prepared(d, act), act.due, act.ok)
  }

  function Run(d: Deck, acts: seq<Act>): Deck
    decreases |acts|
  {
    if acts == [] then d else Run(Do(d, acts[0]).deck, acts[1..])
  }

  /** The keys written along a run, in order. */
  function Writes(d: Deck, acts: seq<Act>): seq<nat>
    decreases |acts|
  {
    if acts == [] then []
    else
      var f := Do(d, acts[0]);
      (if f.written.Some? then [f.written.value] else []) + Writes(f.deck, acts[1..])
  }

  function AllUpdates(acts: seq<Act>): seq<Update>
    decreases |acts|
  {
    if acts == [] then [] else (if acts[0].Apply? then acts[0].updates else []) + AllUpdates(acts[1..])
  }

  predicate Proper(d: Deck) {
    d.next < STATUS_SLOTS
  }

  // ---- Nothing received is lost ----

  lemma {:induction false} UpdateAllAppend(k: Keys, xs: seq<Update>, ys: seq<Update>)
    ensures UpdateAll(k, xs + ys) == UpdateAll(UpdateAll(k, xs), ys)
    decreases |xs|
  {
    hide UpdateKeys;
    if xs == [] {
      assert xs + ys == ys;
    } else {
      assert (xs + ys)[1..] == xs[1..] + ys;
      UpdateAllAppend(UpdateKeys(k, xs[0]), xs[1..], ys);
    }
  }

  /** A search that finds no changed key has looked at all of them. */
  lemma {:induction false} NoneChanged(shown: Keys, target: Keys, next: nat, offset: nat, i: nat)
    requires next < STATUS_SLOTS && offset <= STATUS_SLOTS && i < STATUS_SLOTS && offset <= Distance(next, i)
    requires FirstChanged(shown, target, next, offset).None?
    ensures !OutOfDate(shown, target, i)
    decreases STATUS_SLOTS - offset
  {
    hide OutOfDate;
    if offset < Distance(next, i) {
      NoneChanged(shown, target, next, offset + 1, i);
    } else {
      assert KeyAt(next, offset) == i;
    }
  }

  lemma FlushKeepsTarget(d: Deck, due: bool, ok: bool)
    requires Proper(d)
    ensures Target(Flush(d, due, ok).deck) == Target(d) && Proper(Flush(d, due, ok).deck)
  {
    hide OutOfDate, FirstChanged, WriteKey;
    if d.pending.Some? && FirstChanged(d.shown, d.pending.value, d.next, 0).None? {
      forall i: nat | i < STATUS_SLOTS ensures !OutOfDate(d.shown, d.pending.value, i) {
        NoneChanged(d.shown, d.pending.value, d.next, 0, i);
      }
      AllUpToDate(d.shown, d.pending.value);
    }
  }

  lemma AllUpToDate(shown: Keys, target: Keys)
    requires forall i: nat | i < STATUS_SLOTS :: !OutOfDate(shown, target, i)
    ensures shown == target
  {
    forall i: nat | i < STATUS_SLOTS
      ensures shown.colors[i] == target.colors[i] && shown.agents[i] == target.agents[i]
    {
      assert !OutOfDate(shown, target, i);
    }
    assert shown.colors == target.colors && shown.agents == target.agents;
  }

  /** Over any run, with any timing and any failures, the deck heads for the
      fold of every status update received. */
  lemma {:induction false} TargetIsFold(d: Deck, acts: seq<Act>)
    requires Proper(d)
    ensures Target(Run(d, acts)) == UpdateAll(Target(d), AllUpdates(acts)) && Proper(Run(d, acts))
    decreases |acts|
  {
    hide Flush, UpdateKeys;
    if acts == [] {
    } else {
      var a := acts[0];
      FlushKeepsTarget(Prepared(d, a), a.due, a.ok);
      TargetIsFold(Do(d, a).deck, acts[1..]);
      if a.Apply? {
        UpdateAllAppend(Target(d), a.updates, AllUpdates(acts[1..]));
      } else {
        assert AllUpdates(acts) == AllUpdates(acts[1..]);
      }
    }
  }

  // ---- No starvation ----

  /** How many keys the search passes before it reaches key i. */
  function Distance(next: nat, i: nat): (n: nat)
    requires next < STATUS_SLOTS && i < STATUS_SLOTS
    ensures n < STATUS_SLOTS
  {
    if i >= next then i - next else i + STATUS_SLOTS - next
  }

  lemma {:induction false} FirstChangedNearest(shown: Keys, target: Keys, next: nat, offset: nat, k: nat)
    requires next < STATUS_SLOTS && k < STATUS_SLOTS && OutOfDate(shown, target, k)
    requires offset <= Distance(next, k)
    ensures var i := FirstChanged(shown, target, next, offset);
      i.Some? && offset <= Distance(next, i.value) <= Distance(next, k)
    decreases STATUS_SLOTS - offset
  {
    hide OutOfDate;
    assert Distance(next, KeyAt(next, offset)) == offset;
    if !OutOfDate(shown, target, KeyAt(next, offset)) {
      FirstChangedNearest(shown, target, next, offset + 1, k);
    }
  }

  predicate Waits(d: Deck, k: nat)
    requires k < STATUS_SLOTS
  {
    d.pending.Some? && OutOfDate(d.shown, d.pending.value, k)
  }

  /** A write goes to a waiting key or brings the search strictly closer to it. */
  lemma WriteComesCloser(d: Deck, due: bool, ok: bool, k: nat)
    requires Proper(d) && k < STATUS_SLOTS && Waits(d, k)
    ensures var f := Flush(d, due, ok);
      if f.written.None? then f.deck == d
      else if f.written.value == k then true
      else Proper(f.deck) && Distance(f.deck.next, k) < Distance(d.next, k)
  {
    hide OutOfDate, FirstChanged, WriteKey, Distance;
    FirstChangedNearest(d.shown, d.pending.value, d.next, 0, k);
    var i := FirstChanged(d.shown, d.pending.value, d.next, 0).value;
    if i != k { PastNearer(d.next, i, k); }
  }

  lemma PastNearer(next: nat, i: nat, k: nat)
    requires next < STATUS_SLOTS && i < STATUS_SLOTS && k < STATUS_SLOTS && i != k
    requires Distance(next, i) <= Distance(next, k)
    ensures Distance((i + 1) % STATUS_SLOTS, k) < Distance(next, k)
  {}

  /** Key k is out of date whenever a flush is attempted. */
  predicate KeepsWaiting(d: Deck, acts: seq<Act>, k: nat)
    requires k < STATUS_SLOTS
    decreases |acts|
  {
    acts == [] || (Waits(Prepared(d, acts[0]), k) && KeepsWaiting(Do(d, acts[0]).deck, acts[1..], k))
  }

  /** Under arbitrary updates, timing and failures: as long as a key is out of
      date and not written, no more keys are written than lie in front of it in
      the round; so eight writes cannot pass it by. */
  lemma {:induction false} NoStarvation(d: Deck, acts: seq<Act>, k: nat)
    requires Proper(d) && k < STATUS_SLOTS && KeepsWaiting(d, acts, k)
    ensures k in Writes(d, acts) || |Writes(d, acts)| <= Distance(d.next, k) < STATUS_SLOTS
    decreases |acts|
  {
    hide Flush, UpdateKeys, Waits;
    if acts == [] {
    } else {
      var a := acts[0];
      var f := Do(d, a);
      WriteComesCloser(Prepared(d, a), a.due, a.ok, k);
      if f.written != Some(k) {
        NoStarvation(f.deck, acts[1..], k);
      } else {
        assert Writes(d, acts)[0] == k;
      }
    }
  }

  // ---- Convergence to a fixed target ----

  /** How many of the first n keys are out of date. */
  function Behind(shown: Keys, target: Keys, n: nat): (count: nat)
    requires n <= STATUS_SLOTS
    ensures count <= n
    decreases n
  {
    if n == 0 then 0 else Behind(shown, target, n - 1) + if OutOfDate(shown, target, n - 1) then 1 else 0
  }

  lemma WrittenKey(shown: Keys, target: Keys, i: nat, j: nat)
    requires i < STATUS_SLOTS && j < STATUS_SLOTS
    ensures OutOfDate(WriteKey(shown, target, i), target, j) <==> j != i && OutOfDate(shown, target, j)
  {}

  lemma {:induction false} WriteCatchesUp(shown: Keys, target: Keys, i: nat, n: nat)
    requires n <= STATUS_SLOTS && i < STATUS_SLOTS && OutOfDate(shown, target, i)
    ensures Behind(WriteKey(shown, target, i), target, n) == Behind(shown, target, n) - if i < n then 1 else 0
    decreases n
  {
    hide OutOfDate, WriteKey;
    if n == 0 {
    } else {
      WrittenKey(shown, target, i, n - 1);
      WriteCatchesUp(shown, target, i, n - 1);
    }
  }

  lemma {:induction false} BehindNone(shown: Keys, target: Keys, n: nat, i: nat)
    requires i < n <= STATUS_SLOTS && Behind(shown, target, n) == 0
    ensures !OutOfDate(shown, target, i)
    decreases n
  {
    if i < n - 1 {
      BehindNone(shown, target, n - 1, i);
    }
  }

  lemma FlushCatchesUp(d: Deck)
    requires Proper(d) && d.pending.Some?
    ensures var e := Flush(d, true, true).deck;
      var behind := Behind(d.shown, d.pending.value, STATUS_SLOTS);
      && (behind == 0 ==> e == d.(pending := None) && d.shown == d.pending.value)
      && (behind > 0 ==>
            && Proper(e) && e.pending == d.pending
            && Behind(e.shown, e.pending.value, STATUS_SLOTS) == behind - 1)
  {
    hide OutOfDate;
    var target := d.pending.value;
    var found := FirstChanged(d.shown, target, d.next, 0);
    if found.Some? {
      WriteCatchesUp(d.shown, target, found.value, STATUS_SLOTS);
    } else {
      NoneBehind(d.shown, target, d.next, STATUS_SLOTS);
      SameKeys(d.shown, target);
    }
  }

  lemma {:induction false} NoneBehind(shown: Keys, target: Keys, next: nat, n: nat)
    requires next < STATUS_SLOTS && n <= STATUS_SLOTS && FirstChanged(shown, target, next, 0).None?
    ensures Behind(shown, target, n) == 0
    decreases n
  {
    hide OutOfDate;
    if n == 0 {
    } else {
      NoneChanged(shown, target, next, 0, n - 1);
      NoneBehind(shown, target, next, n - 1);
    }
  }

  lemma SameKeys(shown: Keys, target: Keys)
    requires Behind(shown, target, STATUS_SLOTS) == 0
    ensures shown == target
  {
    hide OutOfDate, Behind;
    forall i: nat | i < STATUS_SLOTS ensures !OutOfDate(shown, target, i) {
      BehindNone(shown, target, STATUS_SLOTS, i);
    }
    AllUpToDate(shown, target);
  }

  lemma {:induction false} BehindSelf(shown: Keys, n: nat)
    requires n <= STATUS_SLOTS
    ensures Behind(shown, shown, n) == 0
    decreases n
  {
    if n == 0 {
    } else {
      BehindSelf(shown, n - 1);
    }
  }

  /** How many keys do not show yet what the deck heads for. */
  function Lag(d: Deck): nat {
    Behind(d.shown, Target(d), STATUS_SLOTS)
  }

  /** A flush writes a key if and only if it is due, succeeds and some key lags,
      and then exactly one key lags less; and a due flush with none lagging
      clears the pending state. */
  lemma FlushProgress(d: Deck, due: bool, ok: bool)
    requires Proper(d)
    ensures var f := Flush(d, due, ok);
      && (f.written.Some? <==> due && ok && Lag(d) > 0)
      && Lag(f.deck) + (if f.written.Some? then 1 else 0) == Lag(d)
      && (due && Lag(d) == 0 ==> f.deck.pending == None)
  {
    hide OutOfDate, Behind, FirstChanged;
    if d.pending.None? {
      BehindSelf(d.shown, STATUS_SLOTS);
    } else if due {
      FlushCatchesUp(d);
      FoundWhenBehind(d);
      FlushKeepsTarget(d, due, ok);
      if Lag(d) == 0 { BehindSelf(d.shown, STATUS_SLOTS); }
    }
  }

  lemma FoundWhenBehind(d: Deck)
    requires Proper(d) && d.pending.Some?
    ensures FirstChanged(d.shown, d.pending.value, d.next, 0).None? <==> Behind(d.shown, d.pending.value, STATUS_SLOTS) == 0
  {
    hide OutOfDate;
    var target := d.pending.value;
    var found := FirstChanged(d.shown, target, d.next, 0);
    if found.None? {
      NoneBehind(d.shown, target, d.next, STATUS_SLOTS);
    } else if Behind(d.shown, target, STATUS_SLOTS) == 0 {
      BehindNone(d.shown, target, STATUS_SLOTS, found.value);
    }
  }

  /** Updates, if any, that leave the target as it is. */
  predicate Settled(target: Keys, acts: seq<Act>) {
    forall k | 0 <= k < |acts| && acts[k].Apply? :: UpdateAll(target, acts[k].updates) == target
  }

  /** The acts whose flush is due and succeeds. */
  function Effective(acts: seq<Act>): nat
    decreases |acts|
  {
    if acts == [] then 0 else (if acts[0].due && acts[0].ok then 1 else 0) + Effective(acts[1..])
  }

  /** Convergence under any timing, with failures and with updates that do not
      move the target: every due flush that succeeds writes a lagging key as long
      as there is one, so that after exactly as many writes as keys were lagging,
      at most eight, the target is shown; and the next due flush clears the
      pending state. */
  lemma {:induction false} Converges(d: Deck, acts: seq<Act>)
    requires Proper(d) && Settled(Target(d), acts)
    ensures var e := Run(d, acts);
      && Proper(e) && Target(e) == Target(d)
      && |Writes(d, acts)| == Min(Effective(acts), Lag(d)) && Lag(e) == Lag(d) - |Writes(d, acts)|
      && (Effective(acts) >= Lag(d) <==> e.shown == Target(d))
      && Lag(d) <= STATUS_SLOTS
      && (e.shown == Target(d) ==> forall ok :: Flush(e, true, ok).deck.pending == None)
    decreases |acts|
  {
    hide Flush, UpdateKeys, Behind, UpdateAll;
    LagNone(d);
    if acts == [] {
      forall ok { FlushProgress(d, true, ok); }
    } else {
      var a := acts[0];
      var p := Prepared(d, a);
      FlushKeepsTarget(p, a.due, a.ok);
      FlushProgress(p, a.due, a.ok);
      assert Target(p) == Target(d) && Lag(p) == Lag(d);
      Converges(Do(d, a).deck, acts[1..]);
      LagNone(Run(d, acts));
    }
  }

  lemma LagNone(d: Deck)
    ensures Lag(d) == 0 <==> d.shown == Target(d)
    ensures Lag(d) <= STATUS_SLOTS
  {
    hide OutOfDate;
    if Lag(d) == 0 { SameKeys(d.shown, Target(d)); }
    BehindSelf(d.shown, STATUS_SLOTS);
  }
}

/** Round-robin API keys with cooldowns in a table that other services share. A look-up reads the
    clock before it takes the table's lock, and holds the lock for this one key; so other services
    may act between two look-ups of a selection and between a look-up's reading and its look.
    The clock is an arbitrary sequence of readings; theorems about time assume it never goes back. */
module KeyRotation {
  import opened Wrappers

  type Clock = nat -> real

  /** One service's rotation and the shared table. `ticks` counts clock readings; `limits` is
      history: the expiry each key was last given. */
  datatype Ring = Ring(
    current: int,
    key: Option<string>,
    cooldowns: map<string, real>,
    ticks: nat,
    limits: map<string, real>)

  const Fresh := Ring(-1, None, map[], 0, map[])

  predicate IsRing(ring: Ring, keys: seq<string>) {
    -1 <= ring.current < |keys|
  }

  predicate OnCooldown(cooldowns: map<string, real>, key: string, now: real) {
    key in cooldowns && cooldowns[key] > now
  }

  /** Look a key up, forgetting a cooldown that is over by the reading `now`. */
  function LookAt(ring: Ring, key: string, now: real): (bool, Ring) {
    if key !in ring.cooldowns then (false, ring)
    else if ring.cooldowns[key] <= now then (false, ring.(cooldowns := ring.cooldowns - {key}))
    else (true, ring)
  }

  function Inspect(clock: Clock, ring: Ring, key: string): (bool, Ring) {
    LookAt(ring.(ticks := ring.ticks + 1), key, clock(ring.ticks))
  }

  function SetCooldown(clock: Clock, ring: Ring, key: string, seconds: int): Ring {
    var expiry := clock(ring.ticks) + if seconds > 1 then seconds as real else 1.0;
    ring.(ticks := ring.ticks + 1, cooldowns := ring.cooldowns[key := expiry], limits := ring.limits[key := expiry])
  }

  // ----- a selection, look by look

  /** One look-up of a selection: the key's position, the table it met, and its clock reading. */
  datatype Look = Look(index: nat, table: map<string, real>, now: real)

  /** A selection under way: the position it started from, its look-ups so far, and the reading for
      the next one, once taken. */
  datatype Scan = Scan(start: int, looks: seq<Look>, now: Option<real>)

  datatype Machine = Machine(ring: Ring, scan: Option<Scan>)

  function Candidate(start: int, offset: nat, total: nat): (i: nat)
    requires -1 <= start < total && total > 0 && offset > 0
    ensures i < total
  {
    (start + offset) % total
  }

  /** A selection in order: it starts from the current key and has a look-up left to make. */
  predicate IsMachine(m: Machine, keys: seq<string>) {
    && IsRing(m.ring, keys)
    && (m.scan.Some? ==> m.scan.value.start == m.ring.current && |m.scan.value.looks| < |keys|)
  }

  function Begin(keys: seq<string>, ring: Ring): (m: Machine)
    requires IsRing(ring, keys)
    ensures IsMachine(m, keys)
  {
    if keys == [] then Machine(ring.(key := None), None) else Machine(ring, Some(Scan(ring.current, [], None)))
  }

  /** The position that a selection looks at next. */
  function Next(keys: seq<string>, m: Machine): (i: nat)
    requires IsMachine(m, keys) && m.scan.Some?
    ensures i < |keys|
  {
    Candidate(m.scan.value.start, |m.scan.value.looks| + 1, |keys|)
  }

  function ReadClock(clock: Clock, keys: seq<string>, m: Machine): (m': Machine)
    requires IsMachine(m, keys) && m.scan.Some?
    ensures IsMachine(m', keys) && m'.scan.Some? && m'.scan.value.now.Some?
    ensures m'.scan.value.looks == m.scan.value.looks
  {
    Machine(m.ring.(ticks := m.ring.ticks + 1), Some(m.scan.value.(now := Some(clock(m.ring.ticks)))))
  }

  function LookOnce(keys: seq<string>, m: Machine): (m': Machine)
    requires IsMachine(m, keys) && m.scan.Some? && m.scan.value.now.Some?
    ensures IsMachine(m', keys)
    ensures m'.scan.Some? ==> |m'.scan.value.looks| > |m.scan.value.looks| && m'.scan.value.now.None?
  {
    var i, now := Next(keys, m), m.scan.value.now.value;
    var (busy, ring) := LookAt(m.ring, keys[i], now);
    var looks := m.scan.value.looks + [Look(i, m.ring.cooldowns, now)];
    if !busy then Machine(ring.(current := i, key := Some(keys[i])), None)
    else if |looks| == |keys| then Machine(ring.(key := None), None)
    else Machine(ring, Some(Scan(m.scan.value.start, looks, None)))
  }

  /** How many steps a selection can still take. */
  function Left(keys: seq<string>, m: Machine): nat
    requires IsMachine(m, keys)
  {
    if m.scan.None? then 0
    else 2 * (|keys| - |m.scan.value.looks|) + if m.scan.value.now.None? then 1 else 0
  }

  /** The rest of a selection with nothing in between. */
  function Finish(clock: Clock, keys: seq<string>, m: Machine): (ring: Ring)
    requires IsMachine(m, keys)
    ensures IsRing(ring, keys)
    decreases Left(keys, m)
  {
    if m.scan.None? then m.ring
    else if m.scan.value.now.None? then Finish(clock, keys, ReadClock(clock, keys, m))
    else Finish(clock, keys, LookOnce(keys, m))
  }

  function Select(clock: Clock, keys: seq<string>, ring: Ring): (ring': Ring)
    requires IsRing(ring, keys)
    ensures IsRing(ring', keys)
  {
    Finish(clock, keys, Begin(keys, ring))
  }

  /** The rest of a rate-limited request: cool the current key down, then rotate. */
  function RateLimited(clock: Clock, keys: seq<string>, ring: Ring, seconds: int): (ring': Ring)
    requires IsRing(ring, keys)
    ensures IsRing(ring', keys)
  {
    if ring.key.None? then ring else Select(clock, keys, SetCooldown(clock, ring, ring.key.value, seconds))
  }

  // ----- whole runs

  /** What can happen to the table and one service: the service begins a selection, reads the clock
      for the next look-up of one, makes that look-up, or handles a rate limit; any other service
      sets a cooldown, or looks one up with whatever reading it has taken before or takes now. */
  datatype Event =
    | Pick
    | Read
    | LookUp
    | Limit(seconds: int)
    | ForeignLimit(key: string, seconds: int)
    | ForeignLookUp(key: string, reading: nat)

  function ForeignLook(clock: Clock, ring: Ring, key: string, reading: nat): Ring {
    LookAt(ring.(ticks := ring.ticks + 1), key, clock(if reading < ring.ticks then reading else ring.ticks)).1
  }

  /** The service does one thing at a time: what it cannot do now has no effect. */
  function Step(clock: Clock, keys: seq<string>, m: Machine, event: Event): (m': Machine)
    requires IsMachine(m, keys)
    ensures IsMachine(m', keys)
  {
    match event
    case Pick => if m.scan.Some? then m else Begin(keys, m.ring)
    case Read => if m.scan.None? || m.scan.value.now.Some? then m else ReadClock(clock, keys, m)
    case LookUp => if m.scan.None? || m.scan.value.now.None? then m else LookOnce(keys, m)
    case Limit(seconds) =>
      if m.scan.Some? || m.ring.key.None? then m
      else Begin(keys, SetCooldown(clock, m.ring, m.ring.key.value, seconds))
    case ForeignLimit(key, seconds) => m.(ring := SetCooldown(clock, m.ring, key, seconds))
    case ForeignLookUp(key, reading) => m.(ring := ForeignLook(clock, m.ring, key, reading))
  }

  /** A run, event by event, from an empty table. */
  function Exec(clock: Clock, keys: seq<string>, events: seq<Event>): (m: Machine)
    ensures IsMachine(m, keys)
  {
    if events == [] then Machine(Fresh, None)
    else Step(clock, keys, Exec(clock, keys, events[..|events| - 1]), events[|events| - 1])
  }

  lemma ExecOneMore(clock: Clock, keys: seq<string>, events: seq<Event>, event: Event)
    ensures Exec(clock, keys, events + [event]) == Step(clock, keys, Exec(clock, keys, events), event)
  {
    assert (events + [event])[..|events|] == events;
  }

  lemma {:induction false} FinishIsARun(clock: Clock, keys: seq<string>, events: seq<Event>) returns (more: seq<Event>)
    ensures events <= more
    ensures Exec(clock, keys, more) == Machine(Finish(clock, keys, Exec(clock, keys, events)), None)
    decreases Left(keys, Exec(clock, keys, events))
  {
    var scan := Exec(clock, keys, events).scan;
    if scan.None? {
      more := events;
    } else {
      var event := if scan.value.now.None? then Read else LookUp;
      ExecOneMore(clock, keys, events, event);
      more := FinishIsARun(clock, keys, events + [event]);
    }
  }

  /** An undisturbed selection is one run among these. */
  lemma SelectIsARun(clock: Clock, keys: seq<string>, events: seq<Event>) returns (more: seq<Event>)
    requires Exec(clock, keys, events).scan.None?
    ensures events <= more
    ensures Exec(clock, keys, more) == Machine(Select(clock, keys, Exec(clock, keys, events).ring), None)
  {
    ExecOneMore(clock, keys, events, Pick);
    more := FinishIsARun(clock, keys, events + [Pick]);
  }

  /** So is an undisturbed reaction to a rate limit: it cools the current key down and then selects. Without
      a current key nothing happens. */
  lemma RateLimitIsARun(clock: Clock, keys: seq<string>, events: seq<Event>, seconds: int) returns (more: seq<Event>)
    requires Exec(clock, keys, events).scan.None?
    ensures events + [Limit(seconds)] <= more
    ensures Exec(clock, keys, more)
            == Machine(RateLimited(clock, keys, Exec(clock, keys, events).ring, seconds), None)
  {
    ExecOneMore(clock, keys, events, Limit(seconds));
    more := FinishIsARun(clock, keys, events + [Limit(seconds)]);
  }

  /** An undisturbed selection ends with a key off the list, the one at the current position, or with none. */
  lemma {:induction false} FinishedKey(clock: Clock, keys: seq<string>, m: Machine)
    requires IsMachine(m, keys) && m.scan.Some?
    ensures var ring := Finish(clock, keys, m);
      ring.key.Some? ==> 0 <= ring.current < |keys| && ring.key == Some(keys[ring.current])
    decreases Left(keys, m)
  {
    if m.scan.value.now.None? {
      FinishedKey(clock, keys, ReadClock(clock, keys, m));
    } else {
      var m' := LookOnce(keys, m);
      if m'.scan.Some? {
        FinishedKey(clock, keys, m');
      }
    }
  }

  /** After a selection the current key is the one at the current position, or there is none, as always
      without keys. */
  lemma SelectedKey(clock: Clock, keys: seq<string>, ring: Ring)
    requires IsRing(ring, keys)
    ensures var ring' := Select(clock, keys, ring);
      ring'.key.Some? ==> 0 <= ring'.current < |keys| && ring'.key == Some(keys[ring'.current])
  {
    if keys != [] {
      FinishedKey(clock, keys, Begin(keys, ring));
    }
  }

  // ----- what a selection picks

  /** Every look-up so far went to the next key in cyclic order and found it on cooldown. */
  ghost predicate AllBusy(keys: seq<string>, scan: Scan)
    requires -1 <= scan.start < |keys| && keys != []
  {
    forall o :: 0 <= o < |scan.looks| ==>
      && scan.looks[o].index == Candidate(scan.start, o + 1, |keys|)
      && OnCooldown(scan.looks[o].table, keys[scan.looks[o].index], scan.looks[o].now)
  }

  lemma {:induction false} LooksWereBusy(clock: Clock, keys: seq<string>, events: seq<Event>)
    requires Exec(clock, keys, events).scan.Some?
    ensures AllBusy(keys, Exec(clock, keys, events).scan.value)
  {
    if events != [] {
      var before := Exec(clock, keys, events[..|events| - 1]);
      if before.scan.Some? {
        LooksWereBusy(clock, keys, events[..|events| - 1]);
      }
    }
  }

  /** In every run, whatever other services do between its steps, a selection takes the first key,
      in cyclic order after the current one, that is off cooldown when it is looked at, by the
      reading taken for that look; and takes none exactly if every key was on cooldown so. */
  lemma SelectionMeaning(clock: Clock, keys: seq<string>, events: seq<Event>)
    requires Exec(clock, keys, events).scan.Some? && Exec(clock, keys, events).scan.value.now.Some?
    ensures var m := Exec(clock, keys, events);
      var scan, i, now := m.scan.value, Next(keys, m), m.scan.value.now.value;
      var m' := Exec(clock, keys, events + [LookUp]);
      && scan.start == m.ring.current && i == Candidate(m.ring.current, |scan.looks| + 1, |keys|)
      && AllBusy(keys, scan)
      && if !OnCooldown(m.ring.cooldowns, keys[i], now) then
           m'.scan.None? && m'.ring.current == i && m'.ring.key == Some(keys[i])
         else if |scan.looks| + 1 == |keys| then
           m'.scan.None? && m'.ring.current == m.ring.current && m'.ring.key == None
         else
           m'.scan == Some(Scan(scan.start, scan.looks + [Look(i, m.ring.cooldowns, now)], None))
  {
    LooksWereBusy(clock, keys, events);
    ExecOneMore(clock, keys, events, LookUp);
  }

  lemma Multiples(k: int, total: nat)
    ensures k >= 1 ==> k * total >= total
    ensures k <= -1 ==> k * total <= 0 - total
  {
    if k >= 1 {
      assert (k - 1) * total >= 0;
    } else if k <= -1 {
      assert (-1 - k) * total >= 0;
    }
  }

  lemma Wrap(i: nat, total: nat)
    requires i < total
    ensures (i + total) % total == i
  {
    var q: int, r: int := (i + total) / total, (i + total) % total;
    assert i + total == q * total + r;
    assert (q - 1) * total == i - r;
    Multiples(q - 1, total);
  }

  lemma CandidateAt(start: int, offset: nat, total: nat)
    requires -1 <= start < total && 1 <= offset <= total
    ensures Candidate(start, offset, total) == if start + offset < total then start + offset else start + offset - total
  {
    if start + offset >= total {
      Wrap(start + offset - total, total);
    }
  }

  /** Looking at offsets 1 to n looks at every key once. */
  lemma EveryKeyIsInspected(start: int, total: nat, i: nat) returns (offset: nat)
    requires -1 <= start < total && i < total
    ensures 1 <= offset <= total && Candidate(start, offset, total) == i
    ensures forall o :: 1 <= o <= total && Candidate(start, o, total) == i ==> o == offset
  {
    offset := if i > start then i - start else i - start + total;
    forall o | 1 <= o <= total
      ensures Candidate(start, o, total) == if start + o < total then start + o else start + o - total
    {
      CandidateAt(start, o, total);
    }
  }

  // ----- cooldowns are honoured

  ghost predicate Monotone(clock: Clock) {
    forall i, j :: i <= j ==> clock(i) <= clock(j)
  }

  /** Every expiry ever given to a key is still in the table or already over. */
  ghost predicate Remembers(clock: Clock, ring: Ring) {
    && (ring.limits != map[] ==> ring.ticks > 0)
    && forall k :: k in ring.limits ==>
         (k in ring.cooldowns && ring.cooldowns[k] == ring.limits[k])
         || (ring.ticks > 0 && ring.limits[k] <= clock(ring.ticks - 1))
  }

  lemma SetCooldownRemembers(clock: Clock, ring: Ring, key: string, seconds: int)
    requires Monotone(clock) && Remembers(clock, ring)
    ensures Remembers(clock, SetCooldown(clock, ring, key, seconds))
  {
    if ring.ticks > 0 { assert clock(ring.ticks - 1) <= clock(ring.ticks); }
  }

  lemma LookAtRemembers(clock: Clock, ring: Ring, key: string, now: real)
    requires Remembers(clock, ring) && ring.ticks > 0 && now <= clock(ring.ticks - 1)
    ensures Remembers(clock, LookAt(ring, key, now).1)
    ensures !LookAt(ring, key, now).0 && key in ring.limits ==> ring.limits[key] <= clock(ring.ticks - 1)
  {
  }

  lemma OneTickRemembers(clock: Clock, ring: Ring)
    requires Monotone(clock) && Remembers(clock, ring)
    ensures Remembers(clock, ring.(ticks := ring.ticks + 1))
  {
    if ring.ticks > 0 { assert clock(ring.ticks - 1) <= clock(ring.ticks); }
  }

  /** The reading that a look-up has taken is not ahead of the latest one. */
  ghost predicate ReadingOk(clock: Clock, m: Machine) {
    m.scan.Some? && m.scan.value.now.Some? ==> m.ring.ticks > 0 && m.scan.value.now.value <= clock(m.ring.ticks - 1)
  }

  lemma StepKeepsReading(clock: Clock, keys: seq<string>, m: Machine, event: Event)
    requires Monotone(clock) && IsMachine(m, keys) && ReadingOk(clock, m)
    ensures ReadingOk(clock, Step(clock, keys, m, event))
  {
    if m.ring.ticks > 0 { assert clock(m.ring.ticks - 1) <= clock(m.ring.ticks); }
  }

  lemma StepRemembers(clock: Clock, keys: seq<string>, m: Machine, event: Event)
    requires Monotone(clock) && IsMachine(m, keys) && Remembers(clock, m.ring) && ReadingOk(clock, m)
    ensures Remembers(clock, Step(clock, keys, m, event).ring)
  {
    match event
    case Pick =>
    case Read => OneTickRemembers(clock, m.ring);
    case LookUp =>
      if m.scan.Some? && m.scan.value.now.Some? {
        LookAtRemembers(clock, m.ring, keys[Next(keys, m)], m.scan.value.now.value);
      }
    case Limit(seconds) => if m.ring.key.Some? { SetCooldownRemembers(clock, m.ring, m.ring.key.value, seconds); }
    case ForeignLimit(key, seconds) => SetCooldownRemembers(clock, m.ring, key, seconds);
    case ForeignLookUp(key, reading) =>
      var read := if reading < m.ring.ticks then reading else m.ring.ticks;
      OneTickRemembers(clock, m.ring);
      LookAtRemembers(clock, m.ring.(ticks := m.ring.ticks + 1), key, clock(read));
  }

  lemma {:induction false} RunRemembers(clock: Clock, keys: seq<string>, events: seq<Event>)
    requires Monotone(clock)
    ensures Remembers(clock, Exec(clock, keys, events).ring) && ReadingOk(clock, Exec(clock, keys, events))
  {
    if events != [] {
      RunRemembers(clock, keys, events[..|events| - 1]);
      StepKeepsReading(clock, keys, Exec(clock, keys, events[..|events| - 1]), events[|events| - 1]);
      StepRemembers(clock, keys, Exec(clock, keys, events[..|events| - 1]), events[|events| - 1]);
    }
  }

  /** In every run, a key that a look-up selects is past the last expiry that anyone has given it, even
      one given since the selection began or since the look-up read the clock: some reading taken by
      then, by this service or another, is no earlier than that expiry. */
  lemma NoKeyBeforeItsExpiry(clock: Clock, keys: seq<string>, events: seq<Event>)
    requires Monotone(clock) && Exec(clock, keys, events).scan.Some?
    ensures var m, m' := Exec(clock, keys, events), Exec(clock, keys, events + [LookUp]);
      m'.scan.None? && m'.ring.key.Some? && m'.ring.key.value in m.ring.limits ==>
        && m'.ring.limits == m.ring.limits && m.ring.ticks > 0
        && m.ring.limits[m'.ring.key.value] <= clock(m.ring.ticks - 1)
  {
    var m := Exec(clock, keys, events);
    ExecOneMore(clock, keys, events, LookUp);
    RunRemembers(clock, keys, events);
    if m.scan.value.now.Some? {
      LookAtRemembers(clock, m.ring, keys[Next(keys, m)], m.scan.value.now.value);
    }
  }

  /** The event puts the key on cooldown: this service's own key met a rate limit, or any other service's. */
  predicate Limits(m: Machine, event: Event, key: string) {
    match event
    case Limit(_) => m.scan.None? && m.ring.key == Some(key)
    case ForeignLimit(k, _) => k == key
    case _ => false
  }

  /** Event `i` is the last that puts the key on cooldown. */
  ghost predicate IsLastLimit(clock: Clock, keys: seq<string>, events: seq<Event>, i: nat, key: string) {
    && i < |events| && LimitsAt(clock, keys, events, i, key)
    && forall j :: i < j < |events| ==> !LimitsAt(clock, keys, events, j, key)
  }

  predicate LimitsAt(clock: Clock, keys: seq<string>, events: seq<Event>, j: nat, key: string)
    requires j < |events|
  {
    Limits(Exec(clock, keys, events[..j]), events[j], key)
  }

  lemma LimitsAtInPrefix(clock: Clock, keys: seq<string>, events: seq<Event>, n: nat, j: nat, key: string)
    requires j < n <= |events|
    ensures LimitsAt(clock, keys, events[..n], j, key) <==> LimitsAt(clock, keys, events, j, key)
  {
    assert events[..n][..j] == events[..j];
  }

  /** How long a rate limit lasts: as many seconds as it says, and at least one. */
  function Length(event: Event): (seconds: real)
    requires event.Limit? || event.ForeignLimit?
    ensures seconds >= 1.0 && seconds >= event.seconds as real
    ensures seconds == 1.0 || seconds == event.seconds as real
  {
    if event.seconds > 1 then event.seconds as real else 1.0
  }

  lemma LimitStep(clock: Clock, keys: seq<string>, m: Machine, event: Event, key: string)
    requires IsMachine(m, keys)
    ensures var limits, limits' := m.ring.limits, Step(clock, keys, m, event).ring.limits;
      if Limits(m, event, key) then key in limits' && limits'[key] == clock(m.ring.ticks) + Length(event)
      else (key in limits' <==> key in limits) && (key in limits ==> limits'[key] == limits[key])
  {
  }

  /** The expiry on record for a key is the last one it was given: the time of that rate limit plus its
      length. */
  lemma {:induction false} LastLimitIsOnRecord(clock: Clock, keys: seq<string>, events: seq<Event>, i: nat, key: string)
    requires IsLastLimit(clock, keys, events, i, key)
    ensures var limits := Exec(clock, keys, events).ring.limits;
      key in limits && limits[key] == clock(Exec(clock, keys, events[..i]).ring.ticks) + Length(events[i])
  {
    var n := |events| - 1;
    LimitStep(clock, keys, Exec(clock, keys, events[..n]), events[n], key);
    assert LimitsAt(clock, keys, events, n, key) <==> i == n;
    if i < n {
      forall j | i <= j < n
        ensures LimitsAt(clock, keys, events[..n], j, key) <==> LimitsAt(clock, keys, events, j, key)
      {
        LimitsAtInPrefix(clock, keys, events, n, j, key);
      }
      LastLimitIsOnRecord(clock, keys, events[..n], i, key);
      assert events[..n][..i] == events[..i];
    }
  }

  /** In every run, a look-up selects a key only once the clock has been read, by this service or another,
      at a time when the last rate limit on it was over. */
  lemma RateLimitIsHonoured(clock: Clock, keys: seq<string>, events: seq<Event>, i: nat, key: string)
    requires Monotone(clock) && Exec(clock, keys, events).scan.Some?
    requires IsLastLimit(clock, keys, events, i, key)
    ensures var m, m' := Exec(clock, keys, events), Exec(clock, keys, events + [LookUp]);
      m'.scan.None? && m'.ring.key == Some(key) ==>
        m.ring.ticks > 0
        && clock(m.ring.ticks - 1) >= clock(Exec(clock, keys, events[..i]).ring.ticks) + Length(events[i])
  {
    LastLimitIsOnRecord(clock, keys, events, i, key);
    NoKeyBeforeItsExpiry(clock, keys, events);
  }

  // ----- the code

  /** A look that nothing comes in between. */
  function UndisturbedLook(clock: Clock, keys: seq<string>, m: Machine): (m': Machine)
    requires IsMachine(m, keys) && m.scan.Some? && m.scan.value.now.None?
    ensures IsMachine(m', keys)
    ensures var i, look := Next(keys, m), Look(Next(keys, m), m.ring.cooldowns, clock(m.ring.ticks));
      var (busy, ring) := Inspect(clock, m.ring, keys[i]);
      m' == if !busy then Machine(ring.(current := i, key := Some(keys[i])), None)
            else if |m.scan.value.looks| + 1 == |keys| then Machine(ring.(key := None), None)
            else Machine(ring, Some(Scan(m.scan.value.start, m.scan.value.looks + [look], None)))
  {
    LookOnce(keys, ReadClock(clock, keys, m))
  }

  lemma FinishAfterLook(clock: Clock, keys: seq<string>, m: Machine)
    requires IsMachine(m, keys) && m.scan.Some? && m.scan.value.now.None?
    ensures Finish(clock, keys, m) == Finish(clock, keys, UndisturbedLook(clock, keys, m))
  {
    var read := ReadClock(clock, keys, m);
    assert Finish(clock, keys, m) == Finish(clock, keys, read);
    assert Finish(clock, keys, read) == Finish(clock, keys, LookOnce(keys, read));
  }

  /** A method here runs with nothing in between; the machine above is what happens when other
      services come in between. */
  class KeyRing {
    const clock: Clock
    const keys: seq<string>
    var current: int
    var key: Option<string>
    var cooldowns: map<string, real>
    var ticks: nat
    ghost var limits: map<string, real>

    constructor (clock: Clock, keys: seq<string>)
      ensures this.clock == clock && this.keys == keys && View() == Fresh
    {
      this.clock, this.keys := clock, keys;
      current, key, cooldowns, ticks, limits := -1, None, map[], 0, map[];
    }

    ghost function View(): Ring
      reads this
    {
      Ring(current, key, cooldowns, ticks, limits)
    }

    method IsKeyOnCooldown(apiKey: string) returns (busy: bool)
      modifies this
      ensures (busy, View()) == Inspect(clock, old(View()), apiKey)
    {
      var now := clock(ticks);
      ticks := ticks + 1;
      if apiKey !in cooldowns {
        return false;
      }
      if cooldowns[apiKey] <= now {
        cooldowns := cooldowns - {apiKey};
        return false;
      }
      return true;
    }

    method SelectNextApiKey() returns (selected: Option<string>)
      requires IsRing(View(), keys)
      modifies this
      ensures View() == Select(clock, keys, old(View())) && selected == key
      ensures IsRing(View(), keys)
    {
      if keys == [] {
        key := None;
        return None;
      }
      var startIndex := if current >= 0 then current else -1;
      var offset := 1;
      ghost var looks: seq<Look> := [];
      while offset <= |keys|
        invariant 0 < offset <= |keys| + 1 && |looks| == offset - 1 && startIndex == current
        invariant IsRing(View(), keys)
        invariant offset <= |keys| ==>
                    Select(clock, keys, old(View()))
                    == Finish(clock, keys, Machine(View(), Some(Scan(startIndex, looks, None))))
        invariant offset == |keys| + 1 ==> Select(clock, keys, old(View())) == View().(key := None)
      {
        var candidate := (startIndex + offset) % |keys|;
        FinishAfterLook(clock, keys, Machine(View(), Some(Scan(startIndex, looks, None))));
        ghost var look := Look(candidate, cooldowns, clock(ticks));
        var busy := IsKeyOnCooldown(keys[candidate]);
        if !busy {
          current, key := candidate, Some(keys[candidate]);
          return key;
        }
        looks := looks + [look];
        offset := offset + 1;
      }
      key := None;
      return None;
    }

    method SetKeyCooldown(apiKey: string, seconds: int)
      modifies this
      ensures View() == SetCooldown(clock, old(View()), apiKey, seconds)
    {
      var expiry := clock(ticks) + if seconds > 1 then seconds as real else 1.0;
      ticks, cooldowns, limits := ticks + 1, cooldowns[apiKey := expiry], limits[apiKey := expiry];
    }

    /** False stands for the exception that no key is left. */
    method HandleRateLimitedKey(seconds: int) returns (ok: bool)
      requires IsRing(View(), keys)
      modifies this
      ensures View() == RateLimited(clock, keys, old(View()), seconds)
      ensures IsRing(View(), keys) && ok == key.Some?
    {
      if key == None {
        return false;
      }
      SetKeyCooldown(key.value, seconds);
      var rotated := SelectNextApiKey();
      return rotated.Some?;
    }
  }
}

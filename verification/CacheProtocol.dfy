/**
 The two caches of internal/server/condition_evaluator.go under concurrency: each look-up is first
 tried under the read lock and, after a miss, repeated under the write lock before it computes and
 inserts. One lock guards both caches. Every locking, reading and writing action is a step of its own,
 taken in any order.
 */
module CacheProtocol {
  import opened Wrappers
  import opened Evaluator

  /** Which of the two caches, and the key in it. */
  datatype Kind = Programs | Templates

  datatype Key = Key(kind: Kind, text: string)

  /** Where a call stands. */
  datatype Pc<V> =
    | Idle
    | Wants(key: Key)
    | Reading(key: Key)
    | Hit(key: Key, found: V)
    | Miss(key: Key)
    | Missed(key: Key)
    | Rechecking(key: Key)
    | Evicting(key: Key)
    | Computing(key: Key)
    | Leaving(key: Key, result: Option<V>)
  {
    predicate HoldsRead() {
      Reading? || Hit? || Miss?
    }

    predicate HoldsWrite() {
      Rechecking? || Evicting? || Computing? || Leaving?
    }
  }

  datatype State<V> = State(
    entries: map<Key, V>,
    threads: seq<Pc<V>>,
    readers: set<nat>,
    writer: Option<nat>,
    answers: seq<(Key, Option<V>)>)

  /** The keys of one of the caches. */
  function KeysOf<V>(entries: map<Key, V>, kind: Kind): set<Key> {
    set key | key in entries && key.kind == kind
  }

  /** The cached computations: what is computed, and the size at which a cache evicts an entry, if any. */
  datatype Cached<!V> = Cached(compute: Key -> Option<V>, bound: Kind -> Option<nat>)
  {
    ghost predicate Sound() {
      forall kind :: bound(kind).Some? ==> bound(kind).value > 0
    }

    predicate Full(entries: map<Key, V>, kind: Kind) {
      bound(kind).Some? && |KeysOf(entries, kind)| >= bound(kind).value
    }

    predicate WithinBounds(entries: map<Key, V>) {
      forall kind :: bound(kind).Some? ==> |KeysOf(entries, kind)| <= bound(kind).value
    }

    /** Each entry is what its key computes. */
    ghost predicate Correct(entries: map<Key, V>) {
      forall key | key in entries :: compute(key) == Some(entries[key])
    }
  }

  /** `Advance` takes the next step of a call; `victim` is the entry evicted if the step evicts. */
  datatype Event = Begin(t: nat, key: Key) | Advance(t: nat, victim: Key)

  function Start<V>(threads: nat): State<V> {
    State(map[], seq(threads, _ => Idle), {}, None, [])
  }

  function At<V>(s: State<V>, t: nat, pc: Pc<V>): State<V>
    requires t < |s.threads|
  {
    s.(threads := s.threads[t := pc])
  }

  /** One step; None when the thread is blocked or has nothing to do. */
  function Next<V>(s: State<V>, event: Event, c: Cached<V>): Option<State<V>> {
    if event.t >= |s.threads| then None else
      var t := event.t;
      match event
      case Begin(_, key) => if s.threads[t].Idle? then Some(At(s, t, Wants(key))) else None
      case Advance(_, victim) =>
        match s.threads[t]
        case Idle => None
        case Wants(key) =>
          if s.writer.Some? then None else Some(At(s, t, Reading(key)).(readers := s.readers + {t}))
        case Reading(key) =>
          Some(At(s, t, if key in s.entries then Hit(key, s.entries[key]) else Miss(key)))
        case Hit(key, v) =>
          Some(At(s, t, Idle).(readers := s.readers - {t}, answers := s.answers + [(key, Some(v))]))
        case Miss(key) => Some(At(s, t, Missed(key)).(readers := s.readers - {t}))
        case Missed(key) =>
          if s.writer.Some? || s.readers != {} then None else Some(At(s, t, Rechecking(key)).(writer := Some(t)))
        case Rechecking(key) =>
          Some(At(s, t, if key in s.entries then Leaving(key, Some(s.entries[key])) else Evicting(key)))
        case Evicting(key) =>
          if !c.Full(s.entries, key.kind) then Some(At(s, t, Computing(key)))
          else if victim in s.entries && victim.kind == key.kind then
            Some(At(s, t, Computing(key)).(entries := s.entries - {victim}))
          else None
        case Computing(key) =>
          var result := c.compute(key);
          var after := At(s, t, Leaving(key, result));
          Some(if result.Some? then after.(entries := s.entries[key := result.value]) else after)
        case Leaving(key, result) =>
          Some(At(s, t, Idle).(writer := None, answers := s.answers + [(key, result)]))
  }

  function Run<V>(s: State<V>, events: seq<Event>, c: Cached<V>): Option<State<V>>
    decreases |events|
  {
    if events == [] then Some(s) else
      var next :- Next(s, events[0], c);
      Run(next, events[1..], c)
  }

  // ---- invariant ---------------------------------------------------------------------------

  /** The lock is held by exactly the threads inside its sections, and a writer is alone. */
  ghost predicate LockInv<V>(s: State<V>) {
    && ReadersInv(s)
    && WriterInv(s)
    && (s.writer.Some? ==> s.readers == {})
  }

  ghost predicate ReadersInv<V>(s: State<V>) {
    forall t: nat :: t in s.readers <==> t < |s.threads| && s.threads[t].HoldsRead()
  }

  ghost predicate WriterInv<V>(s: State<V>) {
    forall t: nat :: s.writer == Some(t) <==> t < |s.threads| && s.threads[t].HoldsWrite()
  }

  /** What a call in progress knows. */
  ghost predicate CallInv<V>(s: State<V>, c: Cached<V>, pc: Pc<V>) {
    match pc
    case Hit(key, v) => c.compute(key) == Some(v)
    case Evicting(key) => key !in s.entries
    case Computing(key) => key !in s.entries && !c.Full(s.entries, key.kind)
    case Leaving(key, result) => result == c.compute(key)
    case _ => true
  }

  ghost predicate DataInv<V(!new)>(s: State<V>, c: Cached<V>) {
    && c.Correct(s.entries)
    && c.WithinBounds(s.entries)
    && (forall t | 0 <= t < |s.threads| :: CallInv(s, c, s.threads[t]))
    && (forall i | 0 <= i < |s.answers| :: s.answers[i].1 == c.compute(s.answers[i].0))
  }

  lemma NextKeepsReaders<V>(s: State<V>, event: Event, c: Cached<V>)
    requires ReadersInv(s) && Next(s, event, c).Some?
    ensures ReadersInv(Next(s, event, c).value)
  {
  }

  lemma NextKeepsWriter<V>(s: State<V>, event: Event, c: Cached<V>)
    requires WriterInv(s) && Next(s, event, c).Some?
    ensures WriterInv(Next(s, event, c).value)
  {
  }

  lemma NextKeepsLock<V>(s: State<V>, event: Event, c: Cached<V>)
    requires LockInv(s) && Next(s, event, c).Some?
    ensures LockInv(Next(s, event, c).value)
  {
    NextKeepsReaders(s, event, c);
    NextKeepsWriter(s, event, c);
    assert s.readers != {} ==> s.writer.None?;
    hide ReadersInv, WriterInv;
  }

  /** Only the writer changes the entries, and it excludes every other section. */
  lemma OthersCallKept<V(!new)>(s: State<V>, event: Event, c: Cached<V>, u: nat)
    requires LockInv(s) && Next(s, event, c).Some?
    requires u < |s.threads| && u != event.t && CallInv(s, c, s.threads[u])
    ensures var after := Next(s, event, c).value;
            u < |after.threads| && CallInv(after, c, after.threads[u])
  {
    assert s.writer == Some(event.t) ==> !s.threads[u].HoldsWrite();
    assert Next(s, event, c).value.entries != s.entries ==> s.writer == Some(event.t);
  }

  lemma AnswersKept<V(!new)>(s: State<V>, event: Event, c: Cached<V>)
    requires DataInv(s, c) && Next(s, event, c).Some?
    ensures var after := Next(s, event, c).value;
            forall i | 0 <= i < |after.answers| :: after.answers[i].1 == c.compute(after.answers[i].0)
  {
    assert CallInv(s, c, s.threads[event.t]);
    hide Cached.Correct, Cached.WithinBounds;
  }

  lemma NextKeepsData<V(!new)>(s: State<V>, event: Event, c: Cached<V>)
    requires LockInv(s) && DataInv(s, c) && c.Sound() && Next(s, event, c).Some?
    ensures DataInv(Next(s, event, c).value, c)
  {
    hide Next, LockInv, CallInv, Cached.Correct, Cached.WithinBounds;
    var after := Next(s, event, c).value;
    ThreadsKept(s, event, c);
    forall u | 0 <= u < |s.threads|
      ensures CallInv(after, c, after.threads[u])
    {
      if u != event.t {
        OthersCallKept(s, event, c, u);
      } else {
        OwnCallKept(s, event, c);
      }
    }
    AnswersKept(s, event, c);
    OwnCallKept(s, event, c);
  }

  lemma ThreadsKept<V>(s: State<V>, event: Event, c: Cached<V>)
    requires Next(s, event, c).Some?
    ensures event.t < |s.threads| && |Next(s, event, c).value.threads| == |s.threads|
  {
  }

  lemma OwnCallKept<V(!new)>(s: State<V>, event: Event, c: Cached<V>)
    requires LockInv(s) && DataInv(s, c) && c.Sound() && Next(s, event, c).Some?
    ensures var after := Next(s, event, c).value;
            && CallInv(after, c, after.threads[event.t])
            && c.Correct(after.entries) && c.WithinBounds(after.entries)
  {
    assert CallInv(s, c, s.threads[event.t]);
    if event.Advance? && event.victim in s.entries {
      RemovalShrinks(s.entries, event.victim);
    }
    if s.threads[event.t].Computing? {
      var key := s.threads[event.t].key;
      var result := c.compute(key);
      if result.Some? {
        InsertionGrows(s.entries, key, result.value);
      }
    }
  }

  lemma RemovalShrinks<V>(entries: map<Key, V>, victim: Key)
    requires victim in entries
    ensures forall kind :: |KeysOf(entries - {victim}, kind)| ==
                           |KeysOf(entries, kind)| - if kind == victim.kind then 1 else 0
  {
    forall kind
      ensures KeysOf(entries - {victim}, kind) == KeysOf(entries, kind) - if kind == victim.kind then {victim} else {}
    {
    }
  }

  lemma InsertionGrows<V>(entries: map<Key, V>, key: Key, v: V)
    requires key !in entries
    ensures forall kind :: |KeysOf(entries[key := v], kind)| ==
                           |KeysOf(entries, kind)| + if kind == key.kind then 1 else 0
  {
    forall kind
      ensures KeysOf(entries[key := v], kind) == KeysOf(entries, kind) + if kind == key.kind then {key} else {}
    {
    }
  }

  lemma {:induction false} RunKeepsInv<V(!new)>(s: State<V>, events: seq<Event>, c: Cached<V>)
    requires LockInv(s) && DataInv(s, c) && c.Sound() && Run(s, events, c).Some?
    ensures LockInv(Run(s, events, c).value) && DataInv(Run(s, events, c).value, c)
    decreases |events|
  {
    if events != [] {
      NextKeepsLock(s, events[0], c);
      NextKeepsData(s, events[0], c);
      RunKeepsInv(Next(s, events[0], c).value, events[1..], c);
    }
  }

  // ---- main results ------------------------------------------------------------------------

  /**
   Under every interleaving of any number of threads the caches are transparent: each call answers
   what computing would, each entry is what its key computes, and a bounded cache keeps its bound.
   */
  lemma CacheIsTransparent<V(!new)>(threads: nat, events: seq<Event>, c: Cached<V>)
    requires c.Sound() && Run(Start(threads), events, c).Some?
    ensures var s := Run(Start(threads), events, c).value;
            && c.Correct(s.entries) && c.WithinBounds(s.entries)
            && (forall i | 0 <= i < |s.answers| :: s.answers[i].1 == c.compute(s.answers[i].0))
  {
    RunKeepsInv(Start(threads), events, c);
  }

  /**
   No call waits for ever on the lock, whichever cache it is for: while one is under way, some call can take
   a step.
   */
  lemma NeverStuck<V(!new)>(s: State<V>, c: Cached<V>, t: nat) returns (event: Event)
    requires LockInv(s) && DataInv(s, c) && c.Sound()
    requires t < |s.threads| && !s.threads[t].Idle?
    ensures event.Advance? && Next(s, event, c).Some?
  {
    var mover := t;
    if s.writer.Some? {
      mover := s.writer.value;
    } else if s.readers != {} {
      mover :| mover in s.readers;
    }
    var victim := s.threads[mover].key;
    var candidates := KeysOf(s.entries, victim.kind);
    if candidates != {} {
      victim :| victim in candidates;
    }
    event := Advance(mover, victim);
  }

  datatype Value<P, T> = Program(program: P) | Template(template: T)

  /** The caches of the evaluator: of the two, only the template cache is bounded. */
  function Caches<P, T>(engine: Engine<P, T>): Cached<Value<P, T>> {
    Cached((key: Key) => Compute(engine, key), (kind: Kind) => if kind.Templates? then Some(MAX_CACHE_SIZE) else None)
  }

  function Compute<P, T>(engine: Engine<P, T>, key: Key): Option<Value<P, T>> {
    match key.kind
    case Programs =>
      var program :- engine.compile(key.text);
      Some(Program(program))
    case Templates =>
      var template :- engine.parse(key.text);
      Some(Template(template))
  }

  /** Whatever the interleaving, a call is answered with what the engine makes of its text, or nothing if it fails. */
  lemma AnswersAreTheEngines<P(!new), T(!new)>(engine: Engine<P, T>, threads: nat, events: seq<Event>, i: nat)
    requires Run(Start(threads), events, Caches(engine)).Some?
    requires i < |Run(Start(threads), events, Caches(engine)).value.answers|
    ensures var (key, answer) := Run(Start(threads), events, Caches(engine)).value.answers[i];
            && (key.kind.Programs? ==>
                  && (engine.compile(key.text) == None <==> answer == None)
                  && (answer.Some? ==> answer.value.Program? && engine.compile(key.text) == Some(answer.value.program)))
            && (key.kind.Templates? ==>
                  && (engine.parse(key.text) == None <==> answer == None)
                  && (answer.Some? ==> answer.value.Template? && engine.parse(key.text) == Some(answer.value.template)))
  {
    hide Run;
    var c := Caches(engine);
    CacheIsTransparent(threads, events, c);
    var key := Run(Start(threads), events, c).value.answers[i].0;
    assert c.compute(key) == Compute(engine, key);
  }

  lemma TemplatesStayBounded<P(!new), T(!new)>(engine: Engine<P, T>, threads: nat, events: seq<Event>)
    requires Run(Start(threads), events, Caches(engine)).Some?
    ensures |KeysOf(Run(Start(threads), events, Caches(engine)).value.entries, Templates)| <= 1000
  {
    var c := Caches(engine);
    assert c.bound(Templates) == Some(MAX_CACHE_SIZE);
    CacheIsTransparent(threads, events, c);
  }

  // ---- the program cache has no bound --------------------------------------------------------

  lemma {:induction false} RunConcat<V>(s: State<V>, a: seq<Event>, b: seq<Event>, c: Cached<V>)
    requires Run(s, a, c).Some?
    ensures Run(s, a + b, c) == Run(Run(s, a, c).value, b, c)
    decreases |a|
  {
    if a == [] {
      assert a + b == b;
    } else {
      assert (a + b)[0] == a[0] && (a + b)[1..] == a[1..] + b;
      RunConcat(Next(s, a[0], c).value, a[1..], b, c);
    }
  }

  /** A single thread with nothing under way and the lock free. */
  ghost predicate Quiet<V>(s: State<V>) {
    s.threads == [Idle] && s.readers == {} && s.writer.None?
  }

  lemma RunOne<V>(s: State<V>, event: Event, rest: seq<Event>, c: Cached<V>)
    requires Next(s, event, c).Some?
    ensures Run(s, [event] + rest, c) == Run(Next(s, event, c).value, rest, c)
  {
    assert ([event] + rest)[1..] == rest;
  }

  /** A step of the only thread, which need not evict. */
  const STEP := Advance(0, Key(Programs, ""))

  function Steps(n: nat): seq<Event> {
    if n == 0 then [] else [STEP] + Steps(n - 1)
  }

  lemma RunTwo<V>(s: State<V>, first: Event, second: Event, rest: seq<Event>, c: Cached<V>)
    requires Next(s, first, c).Some? && Next(Next(s, first, c).value, second, c).Some?
    ensures Run(s, [first] + ([second] + rest), c) == Run(Next(Next(s, first, c).value, second, c).value, rest, c)
  {
    hide Next;
    RunOne(s, first, [second] + rest, c);
    RunOne(Next(s, first, c).value, second, rest, c);
  }

  lemma Switch<V>(a: Pc<V>, b: Pc<V>)
    ensures [a][0 := b] == [b]
  {
  }

  /** The read section of a miss. */
  lemma ReadMisses<V>(s: State<V>, key: Key, rest: seq<Event>, c: Cached<V>)
    requires Quiet(s) && key !in s.entries
    ensures Run(s, [Begin(0, key)] + ([STEP] + ([STEP] + ([STEP] + rest))), c) ==
            Run(s.(threads := [Missed(key)]), rest, c)
  {
    var step := STEP;
    var reading := s.(threads := [Reading(key)], readers := {0});
    Switch<V>(Idle, Wants(key));
    Switch<V>(Wants(key), Reading(key));
    Switch<V>(Reading(key), Miss(key));
    Switch<V>(Miss(key), Missed(key));
    RunTwo(s, Begin(0, key), step, [step] + ([step] + rest), c);
    assert Next(Next(s, Begin(0, key), c).value, step, c) == Some(reading) by {
      assert s.readers + {0} == {0};
    }
    RunTwo(reading, step, step, rest, c);
    assert Next(Next(reading, step, c).value, step, c).value == s.(threads := [Missed(key)]) by {
      assert {0} - {0} == s.readers;
    }
  }

  /** The write section after a miss. */
  lemma WriteInserts<V>(s: State<V>, key: Key, c: Cached<V>)
    requires Quiet(s) && c.bound(key.kind).None? && key !in s.entries && c.compute(key).Some?
    ensures var after := Run(s.(threads := [Missed(key)]), Steps(5), c);
            after.Some? && Quiet(after.value) && after.value.entries == s.entries[key := c.compute(key).value]
  {
    var step := STEP;
    var result := c.compute(key);
    var missed := s.(threads := [Missed(key)]);
    var evicting := s.(threads := [Evicting(key)], writer := Some(0));
    var leaving := s.(threads := [Leaving(key, result)], writer := Some(0), entries := s.entries[key := result.value]);
    Switch<V>(Missed(key), Rechecking(key));
    Switch<V>(Rechecking(key), Evicting(key));
    Switch<V>(Evicting(key), Computing(key));
    Switch<V>(Computing(key), Leaving(key, result));
    Switch<V>(Leaving(key, result), Idle);
    RunTwo(missed, step, step, Steps(3), c);
    assert Next(Next(missed, step, c).value, step, c) == Some(evicting);
    RunTwo(evicting, step, step, Steps(1), c);
    assert Next(Next(evicting, step, c).value, step, c) == Some(leaving);
    RunOne(leaving, step, Steps(0), c);
  }

  /** An undisturbed call for a key that computes but is not cached inserts it. */
  lemma CallInserts<V>(s: State<V>, key: Key, c: Cached<V>)
    requires Quiet(s) && c.bound(key.kind).None? && key !in s.entries && c.compute(key).Some?
    ensures var after := Run(s, [Begin(0, key)] + Steps(8), c);
            after.Some? && Quiet(after.value) && after.value.entries == s.entries[key := c.compute(key).value]
  {
    hide Next, Run;
    var step := STEP;
    assert Steps(8) == [step] + ([step] + ([step] + Steps(5))) by {
      assert Steps(8) == [step] + Steps(7) && Steps(7) == [step] + Steps(6) && Steps(6) == [step] + Steps(5);
    }
    ReadMisses(s, key, Steps(5), c);
    WriteInserts(s, key, c);
  }

  /** An unbounded cache comes to hold any number of entries: one for each key ever computed. */
  lemma {:induction false} UnboundedCacheGrows<V(!new)>(keys: seq<Key>, c: Cached<V>) returns (events: seq<Event>)
    requires forall i | 0 <= i < |keys| :: c.bound(keys[i].kind).None? && c.compute(keys[i]).Some?
    requires forall i, j | 0 <= i < j < |keys| :: keys[i] != keys[j]
    ensures Run(Start(1), events, c).Some?
    ensures var s := Run(Start(1), events, c).value;
            Quiet(s) && |s.entries| == |keys| && forall key :: key in s.entries <==> key in keys
    decreases |keys|
  {
    if keys == [] {
      events := [];
    } else {
      var init, last := keys[..|keys| - 1], keys[|keys| - 1];
      assert keys == init + [last];
      var before := UnboundedCacheGrows(init, c);
      var s := Run(Start(1), before, c).value;
      var call := [Begin(0, last)] + Steps(8);
      CallInserts(s, last, c);
      RunConcat(Start(1), before, call, c);
      events := before + call;
      var after := Run(s, call, c).value;
      assert after.entries.Keys == s.entries.Keys + {last};
    }
  }

  /** So the program cache keeps every expression that ever compiled: any number of them at once. */
  lemma ProgramCacheGrows<P(!new), T(!new)>(engine: Engine<P, T>, sources: seq<string>) returns (events: seq<Event>)
    requires forall i | 0 <= i < |sources| :: engine.compile(sources[i]).Some?
    requires forall i, j | 0 <= i < j < |sources| :: sources[i] != sources[j]
    ensures Run(Start(1), events, Caches(engine)).Some?
    ensures var s := Run(Start(1), events, Caches(engine)).value;
            && |s.entries| == |sources|
            && forall i | 0 <= i < |sources| ::
                 Key(Programs, sources[i]) in s.entries
                 && s.entries[Key(Programs, sources[i])] == Program(engine.compile(sources[i]).value)
  {
    var keys := seq(|sources|, i requires 0 <= i < |sources| => Key(Programs, sources[i]));
    events := UnboundedCacheGrows(keys, Caches(engine));
    CacheIsTransparent(1, events, Caches(engine));
    var s := Run(Start(1), events, Caches(engine)).value;
    forall i | 0 <= i < |sources|
      ensures keys[i] in s.entries && s.entries[keys[i]] == Program(engine.compile(sources[i]).value)
    {
      assert keys[i] in keys;
      assert Caches(engine).compute(keys[i]) == Compute(engine, keys[i]);
    }
  }
}

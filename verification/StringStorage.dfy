/** Shared string storage: one process-wide registry of leaked strings and any number of readers
  with budgets of their own. The registry is only touched inside its mutex, once per call, and a
  reader's other state is its own, so a call is one step of the transition system below. */
module StringStorage {
  import opened Values
  import opened Texts

  const PROCESS_MAX_ENTRIES: nat := 65_536
  const PROCESS_MAX_BYTES: nat := 64 * 1024 * 1024
  const FALLBACK_ENTRY_MAX: nat := 8192
  const FALLBACK_BYTES_MAX: nat := 4 * 1024 * 1024

  /** A leaked buffer, known by its place in the sequence of all leaks, with its final NUL. */
  datatype Slice = Slice(address: nat, buffer: seq<byte>)

  /** `leaks` is history: the text of every buffer ever leaked, in order. */
  datatype Registry = Registry(entries: map<Text, Slice>, leakedBytes: nat, leaks: seq<Text>)

  datatype Reader = Reader(
    entries: map<Text, Slice>, fallbacks: set<Text>, fallbackBytes: nat,
    maxEntries: nat, maxValueBytes: nat)

  // ---------------------------------------------------------------- the registry

  function EntryLimit(maxEntries: nat): nat {
    Min(maxEntries, PROCESS_MAX_ENTRIES)
  }

  function ByteLimit(maxEntries: nat, maxValueBytes: nat): nat {
    Min(SaturatingMul(maxEntries, SaturatingAdd(maxValueBytes, 1)), PROCESS_MAX_BYTES)
  }

  /** There is room for one more leak of `s` under the requested limits. */
  predicate HasRoom(g: Registry, s: Text, maxEntries: nat, maxValueBytes: nat) {
    && |s| < USIZE_MAX
    && |g.entries| < EntryLimit(maxEntries)
    && SaturatingAdd(g.leakedBytes, |s| + 1) <= ByteLimit(maxEntries, maxValueBytes)
  }

  /** Leak one NUL-terminated copy of `s`. */
  function Leak(g: Registry, s: Text): Registry {
    Registry(g.entries[s := Slice(|g.leaks|, s + [0])], g.leakedBytes + |s| + 1, g.leaks + [s])
  }

  /** `SharedLeakRegistry::intern`. */
  function RegistryIntern(g: Registry, s: Text, maxEntries: nat, maxValueBytes: nat): (Registry, Option<Slice>) {
    if s in g.entries then (g, Some(g.entries[s]))
    else if !HasRoom(g, s, maxEntries, maxValueBytes) then (g, None)
    else (Leak(g, s), Some(Leak(g, s).entries[s]))
  }

  // ---------------------------------------------------------------- one reader

  function RememberFallback(r: Reader, s: Text): Reader {
    if |s| > r.maxValueBytes || |r.fallbacks| >= FALLBACK_ENTRY_MAX
       || SaturatingAdd(r.fallbackBytes, |s|) > FALLBACK_BYTES_MAX || s in r.fallbacks
    then r
    else r.(fallbacks := r.fallbacks + {s}, fallbackBytes := r.fallbackBytes + |s|)
  }

  /** `SharedLeakInterner::intern`. */
  function ReaderIntern(g: Registry, r: Reader, s: Text): (Registry, Reader, Option<Slice>) {
    if s in r.entries then (g, r, Some(r.entries[s]))
    else if s in r.fallbacks || |s| > r.maxValueBytes then (g, r, None)
    else if |r.entries| >= r.maxEntries then (g, RememberFallback(r, s), None)
    else
      var (h, answer) := RegistryIntern(g, s, r.maxEntries, r.maxValueBytes);
      match answer
      case Some(slice) => (h, r.(entries := r.entries[s := slice]), answer)
      case None => (h, RememberFallback(r, s), None)
  }

  // ---------------------------------------------------------------- the transition system

  datatype World = World(registry: Registry, readers: map<nat, Reader>)

  datatype Event =
    | Open(id: nat, maxEntries: nat, maxValueBytes: nat)
    | Intern(id: nat, s: Text)

  const EMPTY: World := World(Registry(map[], 0, []), map[])

  /** Opening an id twice, or using one that is not open, does nothing. */
  function Step(w: World, e: Event): World {
    match e
    case Open(id, maxEntries, maxValueBytes) =>
      if id in w.readers then w
      else w.(readers := w.readers[id := Reader(map[], {}, 0, maxEntries, maxValueBytes)])
    case Intern(id, s) =>
      if id !in w.readers then w
      else
        var (g, r, _) := ReaderIntern(w.registry, w.readers[id], s);
        World(g, w.readers[id := r])
  }

  function Answer(w: World, id: nat, s: Text): Option<Slice>
    requires id in w.readers
  {
    ReaderIntern(w.registry, w.readers[id], s).2
  }

  function Run(w: World, events: seq<Event>): World {
    if events == [] then w else Step(Run(w, events[..|events| - 1]), events[|events| - 1])
  }

  // ---------------------------------------------------------------- invariants

  /** Each text is leaked at most once: leak i is the one buffer, NUL-terminated, of its text. */
  ghost predicate LeaksOk(g: Registry) {
    && |g.leaks| == |g.entries|
    && (forall i :: 0 <= i < |g.leaks| ==>
          g.leaks[i] in g.entries && g.entries[g.leaks[i]] == Slice(i, g.leaks[i] + [0]))
    && (forall s :: s in g.entries ==> g.entries[s].address < |g.leaks| && g.leaks[g.entries[s].address] == s)
  }

  /** Leaked bytes are accounted for exactly, and both process ceilings hold. */
  ghost predicate CountersOk(g: Registry) {
    && g.leakedBytes == TotalLength(g.entries.Keys) + |g.entries|
    && |g.entries| <= PROCESS_MAX_ENTRIES
    && g.leakedBytes <= PROCESS_MAX_BYTES
  }

  ghost predicate RegistryOk(g: Registry) {
    LeaksOk(g) && CountersOk(g)
  }

  /** A reader stays within its own budget and only hands out what the registry holds. */
  ghost predicate ReaderOk(g: Registry, r: Reader) {
    && (forall s :: s in r.entries ==> s in g.entries && r.entries[s] == g.entries[s] && |s| <= r.maxValueBytes)
    && |r.entries| <= r.maxEntries
    && r.fallbacks !! r.entries.Keys
    && (forall s :: s in r.fallbacks ==> |s| <= r.maxValueBytes)
    && |r.fallbacks| <= FALLBACK_ENTRY_MAX
    && r.fallbackBytes == TotalLength(r.fallbacks) <= FALLBACK_BYTES_MAX
  }

  ghost predicate AllReadersOk(g: Registry, readers: map<nat, Reader>) {
    forall id :: id in readers ==> ReaderOk(g, readers[id])
  }

  ghost predicate WorldOk(w: World) {
    RegistryOk(w.registry) && AllReadersOk(w.registry, w.readers)
  }

  /** The registry only grows: later registries extend earlier ones. */
  ghost predicate Extends(h: Registry, g: Registry) {
    && (forall s :: s in g.entries ==> s in h.entries && h.entries[s] == g.entries[s])
    && g.leaks <= h.leaks && |g.entries| <= |h.entries| && g.leakedBytes <= h.leakedBytes
  }

  lemma LeakKept(g: Registry, s: Text)
    requires LeaksOk(g) && s !in g.entries
    ensures LeaksOk(Leak(g, s)) && Extends(Leak(g, s), g)
  {
  }

  lemma LeakCounted(g: Registry, s: Text, maxEntries: nat, maxValueBytes: nat)
    requires CountersOk(g) && s !in g.entries && HasRoom(g, s, maxEntries, maxValueBytes)
    ensures CountersOk(Leak(g, s))
    ensures |Leak(g, s).entries| <= maxEntries
    ensures Leak(g, s).leakedBytes <= SaturatingMul(maxEntries, SaturatingAdd(maxValueBytes, 1))
  {
    assert Leak(g, s).entries.Keys == g.entries.Keys + {s};
    TotalLengthInsert(g.entries.Keys, s);
  }

  lemma RegistryKept(g: Registry, s: Text, maxEntries: nat, maxValueBytes: nat)
    requires RegistryOk(g)
    ensures var (h, answer) := RegistryIntern(g, s, maxEntries, maxValueBytes);
            && RegistryOk(h) && Extends(h, g)
            && (answer.Some? ==> s in h.entries && h.entries[s] == answer.value)
            && (h != g ==> |h.entries| <= maxEntries
                           && h.leakedBytes <= SaturatingMul(maxEntries, SaturatingAdd(maxValueBytes, 1)))
  {
    if s !in g.entries && HasRoom(g, s, maxEntries, maxValueBytes) {
      LeakKept(g, s);
      LeakCounted(g, s, maxEntries, maxValueBytes);
    }
  }

  lemma RememberKept(g: Registry, r: Reader, s: Text)
    requires ReaderOk(g, r) && s !in r.entries
    ensures ReaderOk(g, RememberFallback(r, s))
  {
    if s !in r.fallbacks { TotalLengthInsert(r.fallbacks, s); }
  }

  lemma ReaderKeptByGrowth(g: Registry, h: Registry, r: Reader)
    requires ReaderOk(g, r) && Extends(h, g)
    ensures ReaderOk(h, r)
  {
  }

  lemma ReaderAdds(h: Registry, r: Reader, s: Text)
    requires ReaderOk(h, r) && s in h.entries && s !in r.entries && s !in r.fallbacks
    requires |s| <= r.maxValueBytes && |r.entries| < r.maxEntries
    ensures ReaderOk(h, r.(entries := r.entries[s := h.entries[s]]))
  {
  }

  /** A call that gets past the reader's own checks. */
  predicate AsksRegistry(r: Reader, s: Text) {
    s !in r.entries && s !in r.fallbacks && |s| <= r.maxValueBytes && |r.entries| < r.maxEntries
  }

  lemma ReaderKept(g: Registry, r: Reader, s: Text)
    requires RegistryOk(g) && ReaderOk(g, r)
    ensures var (h, r', answer) := ReaderIntern(g, r, s);
            RegistryOk(h) && Extends(h, g) && ReaderOk(h, r')
            && (answer.Some? ==> s in r'.entries && r'.entries[s] == answer.value)
  {
    if s !in r.entries { RememberKept(g, r, s); }
    if AsksRegistry(r, s) {
      RegistryKept(g, s, r.maxEntries, r.maxValueBytes);
      var (h, answer) := RegistryIntern(g, s, r.maxEntries, r.maxValueBytes);
      ReaderKeptByGrowth(g, h, r);
      if answer.Some? { ReaderAdds(h, r, s); } else { RememberKept(h, r, s); }
    }
  }

  lemma StepKept(w: World, e: Event)
    requires WorldOk(w)
    ensures WorldOk(Step(w, e)) && Extends(Step(w, e).registry, w.registry)
  {
    match e
    case Open(id, maxEntries, maxValueBytes) =>
      if id !in w.readers {
        NewReaderOk(w.registry, maxEntries, maxValueBytes);
        ReadersOk(w.registry, w.registry, w.readers, id, Reader(map[], {}, 0, maxEntries, maxValueBytes));
      }
    case Intern(id, s) =>
      if id in w.readers {
        ReaderKept(w.registry, w.readers[id], s);
        var (g, r, _) := ReaderIntern(w.registry, w.readers[id], s);
        ReadersOk(w.registry, g, w.readers, id, r);
      }
  }

  lemma NewReaderOk(g: Registry, maxEntries: nat, maxValueBytes: nat)
    ensures ReaderOk(g, Reader(map[], {}, 0, maxEntries, maxValueBytes))
  {
    assert TotalLength({}) == 0;
  }

  /** One reader changes, the registry grows: all readers stay in order. */
  lemma ReadersOk(g: Registry, h: Registry, readers: map<nat, Reader>, id: nat, r: Reader)
    requires AllReadersOk(g, readers) && Extends(h, g) && ReaderOk(h, r)
    ensures AllReadersOk(h, readers[id := r])
  {
    forall i | i in readers
      ensures ReaderOk(h, readers[i])
    {
      ReaderKeptByGrowth(g, h, readers[i]);
    }
  }

  /** Main result: the invariants hold after any interleaving of any number of readers. */
  lemma {:induction false} ReachableOk(w: World, events: seq<Event>)
    requires WorldOk(w)
    ensures WorldOk(Run(w, events)) && Extends(Run(w, events).registry, w.registry)
    decreases |events|
  {
    if events != [] {
      var n := |events| - 1;
      ReachableOk(w, events[..n]);
      StepKept(Run(w, events[..n]), events[n]);
    }
  }

  lemma EmptyOk()
    ensures WorldOk(EMPTY)
  {
    assert TotalLength({}) == 0;
    var none: map<Text, Slice> := map[];
    assert none.Keys == {};
  }

  /** In particular they hold in every state that a process can come to. */
  lemma ProcessOk(events: seq<Event>)
    ensures WorldOk(Run(EMPTY, events))
  {
    EmptyOk();
    ReachableOk(EMPTY, events);
  }

  /** No reader's call leaves a grown registry above that reader's own limits. */
  lemma AdmissionWithinBudget(g: Registry, r: Reader, s: Text)
    requires RegistryOk(g)
    ensures var h := ReaderIntern(g, r, s).0;
            h != g ==>
              && |h.entries| <= r.maxEntries
              && h.leakedBytes <= SaturatingMul(r.maxEntries, SaturatingAdd(r.maxValueBytes, 1))
  {
    if AsksRegistry(r, s) { RegistryKept(g, s, r.maxEntries, r.maxValueBytes); }
  }

  // ---------------------------------------------------------------- admission in numbers

  /** A text is answered with a slice exactly when its reader has one already, or has not refused it,
      takes values of its length, has room for an entry, and the registry holds the text or has room
      for it within the reader's own limits and those of the process: 65536 entries and 64 MiB. */
  lemma SharedIff(g: Registry, r: Reader, s: Text)
    ensures var (h, r', answer) := ReaderIntern(g, r, s);
            && (answer.Some? <==>
                  s in r.entries
                  || (&& s !in r.fallbacks && |s| <= r.maxValueBytes && |r.entries| < r.maxEntries
                      && (s in g.entries || Room(g, s, r.maxEntries, r.maxValueBytes))))
            && (forall t :: t in h.entries <==> t in g.entries || (t == s && s !in r.entries && answer.Some?))
            && (forall t :: t in r'.entries <==> t in r.entries || (t == s && answer.Some?))
            && r'.maxEntries == r.maxEntries && r'.maxValueBytes == r.maxValueBytes
  {
    RoomIff(g, s, r.maxEntries, r.maxValueBytes);
    var (h, answer) := RegistryIntern(g, s, r.maxEntries, r.maxValueBytes);
    assert forall t :: t in h.entries <==> t in g.entries || (t == s && answer.Some?);
  }

  /** Room for one more leak, in unbounded arithmetic. */
  predicate Room(g: Registry, s: Text, maxEntries: nat, maxValueBytes: nat) {
    && |g.entries| < maxEntries && |g.entries| < 65_536
    && g.leakedBytes + |s| + 1 <= maxEntries * (maxValueBytes + 1)
    && g.leakedBytes + |s| + 1 <= 67_108_864
  }

  /** Saturation never decides: the limits of the process are far below it. */
  lemma RoomIff(g: Registry, s: Text, maxEntries: nat, maxValueBytes: nat)
    ensures HasRoom(g, s, maxEntries, maxValueBytes) <==> Room(g, s, maxEntries, maxValueBytes)
  {
    if maxEntries > 0 { AtLeastOnce(maxEntries, SaturatingAdd(maxValueBytes, 1)); }
    if maxEntries > 0 { AtLeastOnce(maxEntries, maxValueBytes + 1); }
  }

  lemma AtLeastOnce(a: nat, b: nat)
    requires a > 0
    ensures a * b >= b
  {
    assert a * b == (a - 1) * b + b;
    assert (a - 1) * b >= 0;
  }

  /** A refusal is remembered exactly when the text is no longer than the reader's values and the
      fallback cache has room: fewer than 8192 texts, and at most 4 MiB with this one. */
  lemma RememberedIff(g: Registry, r: Reader, s: Text)
    requires ReaderOk(g, r)
    ensures var (_, r', answer) := ReaderIntern(g, r, s);
            && (forall t :: t in r'.fallbacks <==> t in r.fallbacks || (t == s && answer.None? && FallbackRoom(r, s)))
  {
    var r' := ReaderIntern(g, r, s).1;
    if r'.fallbacks != r.fallbacks { assert r' == RememberFallback(r, s); }
  }

  predicate FallbackRoom(r: Reader, s: Text) {
    |s| <= r.maxValueBytes && |r.fallbacks| < 8192 && r.fallbackBytes + |s| <= 4_194_304
  }

  /** Main result on refusals: a refusal that is remembered is permanent, whatever the readers do. */
  lemma RememberedForever(w: World, id: nat, s: Text, events: seq<Event>)
    requires WorldOk(w) && id in w.readers && s in w.readers[id].fallbacks
    ensures var later := Run(w, events);
            id in later.readers && s in later.readers[id].fallbacks && Answer(later, id, s).None?
  {
    RunContinues(w, events, id);
    ReachableOk(w, events);
  }

  // ---------------------------------------------------------------- stability of shared slices

  /** A reader keeps its budget and its entries under every event. */
  ghost predicate Continues(after: Reader, before: Reader) {
    && after.maxEntries == before.maxEntries && after.maxValueBytes == before.maxValueBytes
    && before.fallbacks <= after.fallbacks
    && before.entries.Keys <= after.entries.Keys && |before.entries| <= |after.entries|
    && forall s :: s in before.entries ==> after.entries[s] == before.entries[s]
  }

  lemma StepContinues(w: World, e: Event, id: nat)
    requires id in w.readers
    ensures id in Step(w, e).readers && Continues(Step(w, e).readers[id], w.readers[id])
  {
  }

  lemma {:induction false} RunContinues(w: World, events: seq<Event>, id: nat)
    requires id in w.readers
    ensures id in Run(w, events).readers && Continues(Run(w, events).readers[id], w.readers[id])
    decreases |events|
  {
    if events != [] {
      var n := |events| - 1;
      RunContinues(w, events[..n], id);
      StepContinues(Run(w, events[..n]), events[n], id);
    }
  }

  /** Main result: once a reader has a shared slice for a text, every later call for that text,
      after any events of any readers, answers the same slice. */
  lemma SliceIsForever(w: World, id: nat, s: Text, events: seq<Event>)
    requires WorldOk(w) && id in w.readers && Answer(w, id, s).Some?
    ensures var later := Run(Step(w, Intern(id, s)), events);
            id in later.readers && Answer(later, id, s) == Answer(w, id, s)
  {
    var w1 := Step(w, Intern(id, s));
    ReaderKept(w.registry, w.readers[id], s);
    RunContinues(w1, events, id);
  }

  /** All readers that ever get a slice for a text get the same one. */
  lemma SliceIsShared(w: World, id: nat, s: Text, events: seq<Event>, other: nat)
    requires WorldOk(w) && id in w.readers && Answer(w, id, s).Some?
    requires var later := Run(Step(w, Intern(id, s)), events);
             other in later.readers && Answer(later, other, s).Some?
    ensures Answer(Run(Step(w, Intern(id, s)), events), other, s) == Answer(w, id, s)
  {
    var w1 := Step(w, Intern(id, s));
    var later := Run(w1, events);
    StepKept(w, Intern(id, s));
    ReachableOk(w1, events);
    ReaderKept(w.registry, w.readers[id], s);
    ReaderKept(later.registry, later.readers[other], s);
  }

  // ---------------------------------------------------------------- permanence of fallbacks

  /** Why a reader falls back to a copy. */
  ghost predicate Refused(g: Registry, r: Reader, s: Text) {
    && s !in r.entries
    && (s in r.fallbacks || |s| > r.maxValueBytes || |r.entries| >= r.maxEntries
        || (s !in g.entries && !HasRoom(g, s, r.maxEntries, r.maxValueBytes)))
  }

  lemma FallsBackIffRefused(w: World, id: nat, s: Text)
    requires id in w.readers
    ensures Answer(w, id, s).None? <==> Refused(w.registry, w.readers[id], s)
  {
  }

  lemma NoRoomStays(g: Registry, h: Registry, s: Text, maxEntries: nat, maxValueBytes: nat)
    requires Extends(h, g) && !HasRoom(g, s, maxEntries, maxValueBytes)
    ensures !HasRoom(h, s, maxEntries, maxValueBytes)
  {
  }

  /** The reader's own calls, for whatever text, never lift a refusal. */
  lemma RefusalSurvivesOwnCall(g: Registry, r: Reader, s: Text, t: Text)
    requires RegistryOk(g) && Refused(g, r, s)
    ensures var (h, r', _) := ReaderIntern(g, r, t); Refused(h, r', s)
  {
    if AsksRegistry(r, t) {
      RegistryKept(g, t, r.maxEntries, r.maxValueBytes);
      var h := RegistryIntern(g, t, r.maxEntries, r.maxValueBytes).0;
      if !HasRoom(g, s, r.maxEntries, r.maxValueBytes) {
        NoRoomStays(g, h, s, r.maxEntries, r.maxValueBytes);
      }
    }
  }

  /** Main result: while only this reader is stepping, a fallback answer is permanent, whether or
      not the text fitted into the bounded fallback cache. */
  lemma {:induction false} FallbackIsForeverAlone(w: World, id: nat, s: Text, events: seq<Event>)
    requires WorldOk(w) && id in w.readers && Answer(w, id, s).None?
    requires forall k :: 0 <= k < |events| ==> events[k].Intern? && events[k].id == id
    ensures var later := Run(w, events);
            WorldOk(later) && id in later.readers && Answer(later, id, s).None?
    decreases |events|
  {
    if events != [] {
      var n := |events| - 1;
      FallbackIsForeverAlone(w, id, s, events[..n]);
      StepKept(Run(w, events[..n]), events[n]);
      FallsBackIffRefused(Run(w, events[..n]), id, s);
      RefusalSurvivesOwnCall(Run(w, events[..n]).registry, Run(w, events[..n]).readers[id], s, events[n].s);
      FallsBackIffRefused(Run(w, events), id, s);
    }
  }

  /** With other readers stepping, a refused text is shared later exactly when the registry has
      come to hold it and the reader neither remembers the refusal nor has run out of budget. */
  lemma FallbackAmongOthers(w: World, id: nat, s: Text, events: seq<Event>)
    requires WorldOk(w) && id in w.readers && Answer(w, id, s).None?
    ensures var later := Run(w, events);
            && id in later.readers
            && (Answer(later, id, s).Some? <==>
                  s in later.readers[id].entries || (s in later.registry.entries && AsksRegistry(later.readers[id], s)))
  {
    var later := Run(w, events);
    ReachableOk(w, events);
    RunContinues(w, events, id);
    FallsBackIffRefused(w, id, s);
    LaterAnswer(w.registry, w.readers[id], later.registry, later.readers[id], s);
  }

  lemma LaterAnswer(g: Registry, r: Reader, h: Registry, later: Reader, s: Text)
    requires Refused(g, r, s) && Extends(h, g) && Continues(later, r)
    ensures ReaderIntern(h, later, s).2.Some? <==> s in later.entries || (s in h.entries && AsksRegistry(later, s))
  {
    if s !in h.entries && AsksRegistry(later, s) {
      NoRoomStays(g, h, s, r.maxEntries, r.maxValueBytes);
    }
  }

  /** Such a change of answer does happen: reader 0, with room for one entry, is refused a text
      too long for the fallback cache; reader 1 then leaks it, and reader 0 gets the slice. */
  lemma RefusedThenShared(long: Text)
    requires |long| == FALLBACK_BYTES_MAX + 1
    ensures var w := Run(EMPTY, [Open(0, 1, |long|), Open(1, 8, |long|), Intern(1, [65]), Intern(0, long)]);
            && 0 in w.readers && 1 in w.readers
            && Answer(w, 0, long).None?
            && Answer(Step(w, Intern(1, long)), 0, long).Some?
  {
    var e := [Open(0, 1, |long|), Open(1, 8, |long|), Intern(1, [65]), Intern(0, long)];
    assert e[..1] == [e[0]] && e[..2] == [e[0], e[1]] && e[..3] == [e[0], e[1], e[2]];
    assert [e[0]][..0] == [] && [e[0], e[1]][..1] == [e[0]];
    assert [e[0], e[1], e[2]][..2] == [e[0], e[1]];
    assert Run(EMPTY, []) == EMPTY;
    var w1 := Run(EMPTY, [e[0]]);
    assert w1 == Step(EMPTY, e[0]);
    var w2 := Run(EMPTY, [e[0], e[1]]);
    assert w2 == Step(w1, e[1]);
    var none: map<Text, Slice> := map[];
    var r0, r1 := Reader(none, {}, 0, 1, |long|), Reader(none, {}, 0, 8, |long|);
    assert w2 == World(Registry(none, 0, []), map[0 := r0, 1 := r1]);
    assert HasRoom(w2.registry, [65], 8, |long|);
    var w3 := Run(EMPTY, e[..3]);
    var g3 := Leak(w2.registry, [65]);
    assert w3 == World(g3, map[0 := r0, 1 := r1.(entries := r1.entries[[65] := g3.entries[[65]]])]);
    assert |g3.entries| == 1 && g3.leakedBytes == 2;
    assert long != [65];
    assert Run(EMPTY, e) == w3;
    assert HasRoom(g3, long, 8, |long|);
  }

  // ---------------------------------------------------------------- the objects behind the system

  /** The registry behind its mutex. */
  class SharedLeakRegistry {
    var entries: map<Text, Slice>
    var leakedBytes: nat
    var leaks: seq<Text>

    ghost function Current(): Registry
      reads this
    {
      Registry(entries, leakedBytes, leaks)
    }

    constructor ()
      ensures Current() == EMPTY.registry
    {
      entries, leakedBytes, leaks := map[], 0, [];
    }

    method Intern(s: Text, maxEntries: nat, maxValueBytes: nat) returns (r: Option<Slice>)
      modifies this
      ensures (Current(), r) == RegistryIntern(old(Current()), s, maxEntries, maxValueBytes)
    {
      if s in entries {
        return Some(entries[s]);
      }
      var entryLimit := Min(maxEntries, PROCESS_MAX_ENTRIES);
      var requested := SaturatingMul(maxEntries, SaturatingAdd(maxValueBytes, 1));
      var byteLimit := Min(requested, PROCESS_MAX_BYTES);
      if |s| >= USIZE_MAX {
        return None;
      }
      if |entries| >= entryLimit {
        return None;
      }
      if SaturatingAdd(leakedBytes, |s| + 1) > byteLimit {
        return None;
      }
      var leaked := LeakNulTerminated(s);
      entries := entries[s := leaked];
      leakedBytes := leakedBytes + |s| + 1;
      return Some(leaked);
    }

    /** `leak_nul_terminated`: copy, append NUL, and view the copy in the leaked memory. */
    method LeakNulTerminated(s: Text) returns (slice: Slice)
      modifies `leaks
      ensures slice == Slice(|old(leaks)|, s + [0]) && leaks == old(leaks) + [s]
    {
      var bytes := s;
      bytes := bytes + [0];
      slice := Slice(|leaks|, bytes);
      leaks := leaks + [s];
    }
  }

  /** One reader's interner. Any number of them share a registry. */
  class SharedLeakInterner {
    const registry: SharedLeakRegistry
    var entries: map<Text, Slice>
    var fallbacks: set<Text>
    var fallbackBytes: nat
    const maxEntries: nat
    const maxValueBytes: nat

    ghost function Current(): Reader
      reads this
    {
      Reader(entries, fallbacks, fallbackBytes, maxEntries, maxValueBytes)
    }

    constructor (registry: SharedLeakRegistry, maxEntries: nat, maxValueBytes: nat)
      ensures this.registry == registry && Current() == Reader(map[], {}, 0, maxEntries, maxValueBytes)
    {
      this.registry, this.maxEntries, this.maxValueBytes := registry, maxEntries, maxValueBytes;
      entries, fallbacks, fallbackBytes := map[], {}, 0;
    }

    method Intern(s: Text) returns (r: Option<Slice>)
      modifies this, registry
      ensures (registry.Current(), Current(), r) == ReaderIntern(old(registry.Current()), old(Current()), s)
    {
      if s in entries {
        return Some(entries[s]);
      }
      if s in fallbacks {
        return None;
      }
      if |s| > maxValueBytes {
        return None;
      }
      if |entries| >= maxEntries {
        Remember(s);
        return None;
      }
      r := registry.Intern(s, maxEntries, maxValueBytes);
      match r {
        case Some(leaked) => entries := entries[s := leaked];
        case None => Remember(s);
      }
    }

    /** `remember_fallback`. */
    method Remember(s: Text)
      modifies `fallbacks, `fallbackBytes
      ensures Current() == RememberFallback(old(Current()), s)
    {
      if |s| > maxValueBytes || |fallbacks| >= FALLBACK_ENTRY_MAX {
        return;
      }
      if SaturatingAdd(fallbackBytes, |s|) > FALLBACK_BYTES_MAX {
        return;
      }
      if s !in fallbacks {
        fallbacks := fallbacks + {s};
        fallbackBytes := fallbackBytes + |s|;
      }
    }
  }
}

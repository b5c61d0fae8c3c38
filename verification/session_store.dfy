/** The application shell's session collection: loading it from browser
    storage, persisting it after every change, handing the chat window a
    session and folding the window's updates back in. Storage is a map from
    key to the stored text as the JSON parser sees it. */
module SessionStore {
  import opened Basics
  import opened Types

  const StorageKey: string := "chatbank_social_v1"

  /** The stored text under a key, as `JSON.parse` reads it. */
  datatype StoredText =
    | EmptyText                                   // "" (falsy, never parsed)
    | Malformed                                   // JSON.parse throws
    | JsonNull                                    // "null": reading `.sessions` throws
    | JsonObject(sessions: Option<seq<Session>>)  // an object, with or without a truthy `sessions`

  type Store = map<string, StoredText>

  /** The mount-time load: the stored sessions when the text parses to an
      object with a `sessions` field, the empty collection otherwise. */
  function Load(store: Store): (sessions: seq<Session>)
    ensures (StorageKey in store && store[StorageKey].JsonObject? && store[StorageKey].sessions.Some?)
            ==> sessions == store[StorageKey].sessions.value
    ensures !(StorageKey in store && store[StorageKey].JsonObject? && store[StorageKey].sessions.Some?)
            ==> sessions == []
  {
    if StorageKey !in store then []
    else match store[StorageKey]
      case EmptyText => []
      case Malformed => []
      case JsonNull => []
      case JsonObject(s) => s.GetOr([])
  }

  /** The persist effect: `{sessions}` under the storage key. */
  function Persist(store: Store, sessions: seq<Session>): (store': Store)
    ensures StorageKey in store' && store'[StorageKey] == JsonObject(Some(sessions))
    ensures forall k | k in store && k != StorageKey :: k in store' && store'[k] == store[k]
    ensures store'.Keys == store.Keys + {StorageKey}
  {
    store[StorageKey := JsonObject(Some(sessions))]
  }

  /** What is persisted is what the next load reads back. */
  lemma LoadPersist(store: Store, sessions: seq<Session>)
    ensures Load(Persist(store, sessions)) == sessions
  {
  }

  /** Mounting the shell: the persist effect first writes the initial empty
      collection, the load lands, and the persist effect runs again with the
      loaded sessions. Returns the sessions and the resulting store. */
  function Mount(store: Store): (r: (seq<Session>, Store))
    ensures r.0 == Load(store)
    ensures r.1 == Persist(store, Load(store))
  {
    var early := Persist(store, []);
    var loaded := Load(store);
    (loaded, Persist(early, loaded))
  }

  /** Mounting under React's strict mode in a development build, as the
      code is written: both effects run, are torn down and run again before
      any queued update lands. The first load queues the stored sessions,
      the first persist writes the initial empty collection, the second
      load reads that back and queues it last, and the last queued update
      wins. Returns the sessions and the resulting store. */
  function StrictMount(store: Store): (r: (seq<Session>, Store))
    ensures Load(r.1) == r.0
  {
    var first := Load(store);
    var s1 := Persist(store, []);
    var second := Load(s1);
    var s2 := Persist(s1, []);
    var landed := [first, second];
    (landed[|landed| - 1], Persist(s2, landed[|landed| - 1]))
  }

  /** The double mount erases what was stored: whatever storage held, the
      shell ends with no sessions, and storage holds none either. */
  lemma StrictMountErases(store: Store)
    ensures StrictMount(store).0 == []
    ensures StorageKey in StrictMount(store).1 && StrictMount(store).1[StorageKey] == JsonObject(Some([]))
    ensures Load(store) != [] ==> StrictMount(store).0 != Mount(store).0
  {
    LoadPersist(store, []);
  }

  /** The evidently intended mount: the collection is read while the state
      is initialised (`useState(() => load())`), so each run of the persist
      effect writes back what was loaded, however often strict mode runs it. */
  function LazyMount(store: Store, runs: nat): (r: (seq<Session>, Store))
    ensures r.0 == Load(store)
    ensures runs > 0 ==> Load(r.1) == Load(store)
    decreases runs
  {
    if runs == 0 then (Load(store), store)
    else
      var prev := LazyMount(store, runs - 1);
      LoadPersist(prev.1, Load(store));
      (Load(store), Persist(prev.1, Load(store)))
  }

  /** Reading the collection while initialising keeps the stored sessions
      under a double mount, and agrees with the single mount. */
  lemma LazyMountKeeps(store: Store)
    ensures LazyMount(store, 2).0 == Mount(store).0
    ensures LazyMount(store, 2).1 == Mount(store).1
  {
  }

  /** After mounting, unreadable storage has been replaced by an empty
      collection and readable storage is left as it was read. */
  lemma MountNormalizesStorage(store: Store)
    ensures Load(Mount(store).1) == Mount(store).0
    ensures Mount(store).0 == [] ==> Mount(store).1[StorageKey] == JsonObject(Some([]))
  {
  }

  /** The session created on demand when none exists yet. */
  function DefaultSession(now: int): Session {
    Session("default", "Main Chat", [], now)
  }

  /** `getOrCreateSession`: the head of the collection, or a fresh default
      session that then becomes the whole collection. */
  function GetOrCreateSession(sessions: seq<Session>, now: int): (r: (Session, seq<Session>))
    ensures |sessions| > 0 ==> r.0 == sessions[0] && r.1 == sessions
    ensures |sessions| == 0 ==> r.0 == Session("default", "Main Chat", [], now) && r.1 == [r.0]
    ensures r.0 in r.1 && r.1[0] == r.0
  {
    if |sessions| > 0 then (sessions[0], sessions)
    else (DefaultSession(now), [DefaultSession(now)])
  }

  /** On the next render, the collection the call left behind gives back
      the same session and leaves the collection alone, whatever the clock
      reads then: a session is created at most once. */
  lemma GetOrCreateStable(sessions: seq<Session>, now: int, later: int)
    ensures var (s, c) := GetOrCreateSession(sessions, now);
      GetOrCreateSession(c, later) == (s, c)
  {
  }

  /** `updateSession`: every session with the updated one's id is replaced by it. */
  function UpdateSession(sessions: seq<Session>, updated: Session): (r: seq<Session>)
    ensures |r| == |sessions|
    ensures forall i | 0 <= i < |r| ::
      r[i] == (if sessions[i].id == updated.id then updated else sessions[i])
  {
    if |sessions| == 0 then []
    else [if sessions[0].id == updated.id then updated else sessions[0]] + UpdateSession(sessions[1..], updated)
  }

  /** An update for an id that is not in the collection changes nothing. */
  lemma UpdateAbsentId(sessions: seq<Session>, updated: Session)
    requires forall i | 0 <= i < |sessions| :: sessions[i].id != updated.id
    ensures UpdateSession(sessions, updated) == sessions
  {
  }

  /** Updates for one id overwrite each other: only the last one counts. */
  lemma UpdateTwice(sessions: seq<Session>, a: Session, b: Session)
    requires a.id == b.id
    ensures UpdateSession(UpdateSession(sessions, a), b) == UpdateSession(sessions, b)
  {
  }

  /** The collection after a series of updates arrives, in order. */
  function ApplyUpdates(sessions: seq<Session>, updates: seq<Session>): (r: seq<Session>)
    ensures |r| == |sessions|
    decreases |updates|
  {
    if |updates| == 0 then sessions
    else ApplyUpdates(UpdateSession(sessions, updates[0]), updates[1..])
  }

  /** A series of updates to one session leaves the collection as the last
      update alone would. */
  lemma {:induction false} ApplyUpdatesSameId(sessions: seq<Session>, updates: seq<Session>)
    requires |updates| > 0
    requires forall i | 0 <= i < |updates| :: updates[i].id == updates[0].id
    ensures ApplyUpdates(sessions, updates) == UpdateSession(sessions, updates[|updates| - 1])
    decreases |updates|
  {
    if |updates| > 1 {
      var next := UpdateSession(sessions, updates[0]);
      ApplyUpdatesSameId(next, updates[1..]);
      UpdateTwice(sessions, updates[0], updates[|updates| - 1]);
    }
  }
}

/** The process-wide, in-memory session table of the admin login
    (src/lib/server/sessionStore.ts). Session ids are derived
    deterministically from the username by a hash that is a parameter of the
    store; nothing is assumed about it beyond its result being a 64-character
    lowercase hexadecimal digest. In particular it need not be injective. */
module SessionStore {
  import opened Js

  predicate IsLowerHex(c: char)
  {
    '0' <= c <= '9' || 'a' <= c <= 'f'
  }

  /** What `digest('hex')` of a SHA-256 hash looks like. */
  predicate IsHexDigest(s: string)
  {
    |s| == 64 && forall i :: 0 <= i < |s| ==> IsLowerHex(s[i])
  }

  type Digest = s: string | IsHexDigest(s) witness seq(64, _ => '0')

  /** The session-id derivation, `sha256(username)` as hex. */
  type Hash = string -> Digest

  /** `createdAt` is Date.now() at creation; it is stored and never read. */
  datatype SessionRecord = SessionRecord(username: string, createdAt: int)

  type Table = map<string, SessionRecord>

  /** `sessions.get(id)`: the record, or `undefined`. */
  function Lookup(t: Table, id: string): (r: Option<SessionRecord>)
    ensures r.Some? <==> id in t
    ensures r.Some? ==> r.value == t[id]
  {
    if id in t then Some(t[id]) else None
  }

  /** The table after `sessions.set(id, {username, createdAt: now})`. */
  function Created(t: Table, id: string, username: string, now: int): Table
  {
    t[id := SessionRecord(username, now)]
  }

  /** The table after `sessions.delete(id)`. */
  function Deleted(t: Table, id: string): Table
  {
    t - {id}
  }

  /** A session id is never the empty string, so it is always a truthy cookie. */
  lemma DigestNonEmpty(d: Digest)
    ensures d != ""
  {
  }

  /** Right after creating a session for `u`, looking up its id yields a
      record for `u`, stamped with the creation time. */
  lemma LookupAfterCreate(t: Table, h: Hash, u: string, now: int)
    ensures Lookup(Created(t, h(u), u, now), h(u)) == Some(SessionRecord(u, now))
  {
  }

  /** Creating a session changes only the entry at the new id. */
  lemma CreateFrame(t: Table, id: string, u: string, now: int, other: string)
    requires other != id
    ensures Lookup(Created(t, id, u, now), other) == Lookup(t, other)
    ensures Created(t, id, u, now).Keys == t.Keys + {id}
  {
  }

  /** The id depends on the username only: logging in twice as the same user
      replaces that user's record instead of adding a second one, and the
      table does not grow. */
  lemma CreateTwiceOverwrites(t: Table, h: Hash, u: string, now1: int, now2: int)
    ensures Created(Created(t, h(u), u, now1), h(u), u, now2) == Created(t, h(u), u, now2)
    ensures |Created(Created(t, h(u), u, now1), h(u), u, now2)| == |Created(t, h(u), u, now1)|
  {
  }

  /** Since the hash is not assumed injective: when two usernames collide,
      creating a session for the second takes over the first one's id, and
      the first user's cookie then resolves to the second user. */
  lemma CollisionTakesOver(t: Table, h: Hash, u1: string, u2: string, now1: int, now2: int)
    requires h(u1) == h(u2)
    ensures Lookup(Created(Created(t, h(u1), u1, now1), h(u2), u2, now2), h(u1))
            == Some(SessionRecord(u2, now2))
  {
  }

  /** After `delete(id)` the id is absent and every other entry is kept. */
  lemma LookupAfterDelete(t: Table, id: string, other: string)
    ensures Lookup(Deleted(t, id), id) == None
    ensures other != id ==> Lookup(Deleted(t, id), other) == Lookup(t, other)
  {
  }

  /** Deleting an id that is not there is a no-op, so deleting is idempotent. */
  lemma DeleteAbsentIsNoop(t: Table, id: string)
    ensures id !in t ==> Deleted(t, id) == t
    ensures Deleted(Deleted(t, id), id) == Deleted(t, id)
  {
  }

  /** The module-level `sessions` map together with the id derivation. */
  class Store {
    const idOf: Hash
    var sessions: Table

    /** The map starts empty when the server process starts. */
    constructor (idOf: Hash)
      ensures this.idOf == idOf && sessions == map[]
    {
      this.idOf := idOf;
      sessions := map[];
    }

    /** `createSession(username)`: the id is the hash of the username, the
        entry there is (over)written, and the id is returned. */
    method CreateSession(username: string, now: int) returns (id: string)
      modifies this
      ensures id == idOf(username)
      ensures sessions == Created(old(sessions), id, username, now)
    {
      id := idOf(username);
      sessions := sessions[id := SessionRecord(username, now)];
    }

    /** `getSession(id)`: a pure read. */
    method GetSession(id: string) returns (r: Option<SessionRecord>)
      ensures r.Some? <==> id in sessions
      ensures r.Some? ==> r.value == sessions[id]
    {
      if id in sessions {
        r := Some(sessions[id]);
      } else {
        r := None;
      }
    }

    /** `deleteSession(id)`: removes the entry if there is one; never fails. */
    method DeleteSession(id: string)
      modifies this
      ensures sessions == Deleted(old(sessions), id)
    {
      sessions := sessions - {id};
    }
  }
}

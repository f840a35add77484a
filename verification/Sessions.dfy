/**
 The A2A session table: a fixed array in which a new session, when the table is full, takes the
 place of the least recently active one.
 */
module Sessions {
  import opened CText

  const MAX_SLOTS: nat := 128
  const ID_LENGTH: nat := 35
  const AGENT_LENGTH: nat := 63
  const ID_COMPARED: nat := 36

  datatype Session = Session(id: string, agent: string, createdAt: nat, lastActivity: nat,
                             requests: nat, authenticated: bool, encrypted: bool)

  const ZEROED: Session := Session("", "", 0, 0, 0, false, false)

  /** The first session with the given id, or the number of sessions. */
  function IndexOf(ss: seq<Session>, id: string): (i: nat)
    ensures i <= |ss|
    ensures i < |ss| ==> ss[i].id == id
    ensures forall j :: 0 <= j < i ==> ss[j].id != id
  {
    if ss == [] || ss[0].id == id then 0 else 1 + IndexOf(ss[1..], id)
  }

  /** `i` is the first of the sessions with the least last activity. */
  ghost predicate IsOldest(ss: seq<Session>, i: nat) {
    && i < |ss|
    && (forall j :: 0 <= j < |ss| ==> ss[i].lastActivity <= ss[j].lastActivity)
    && forall j :: 0 <= j < i ==> ss[i].lastActivity < ss[j].lastActivity
  }

  /** The last session takes the place of the i-th. */
  function RemoveAt(ss: seq<Session>, i: nat): (r: seq<Session>)
    requires i < |ss|
    ensures |r| == |ss| - 1
  {
    ss[i := ss[|ss| - 1]][..|ss| - 1]
  }

  /** Removing that way removes exactly the i-th session. */
  lemma RemoveAtRemoves(ss: seq<Session>, i: nat)
    requires i < |ss|
    ensures multiset(RemoveAt(ss, i)) == multiset(ss) - multiset{ss[i]}
  {
    var n := |ss| - 1;
    assert ss == ss[..n] + [ss[n]];
    if i < n {
      assert ss[i := ss[n]][..n] == ss[..n][i := ss[n]];
    } else {
      assert ss[i := ss[n]][..n] == ss[..n];
    }
  }

  /** One element of the old table is gone and `s` is there instead; all others are kept. */
  ghost predicate Replaced(before: seq<Session>, after: seq<Session>, i: nat, s: Session) {
    i < |before| && multiset(after) == multiset(before) - multiset{before[i]} + multiset{s}
  }

  lemma ReplacedBy(ss: seq<Session>, i: nat, s: Session)
    requires i < |ss|
    ensures Replaced(ss, RemoveAt(ss, i) + [s], i, s)
  {
    RemoveAtRemoves(ss, i);
  }

  /** Wrap-around subtraction of 64-bit times. */
  function Age(now: nat, created: nat): nat
    requires created <= ULONG_MAX
  {
    if now >= created then now - created else now + ULONG_MAX + 1 - created
  }

  /**
   With a clock that has not run back since the creation, a session is past twice its lifetime
   exactly when that many seconds and one more have passed; with one that has, it always is.
   */
  lemma LifetimeMeans(now: nat, created: nat, ttl: nat)
    requires created <= ULONG_MAX && now <= ULONG_MAX
    ensures created <= now ==> (Age(now, created) / 1000 > ttl * 2 <==> now >= created + 1000 * (2 * ttl + 1))
    ensures now < created ==> Age(now, created) == 0x1_0000_0000_0000_0000 - (created - now)
  {
  }

  /** Comparing a stored id with strncmp over the whole field is comparing the ids. */
  lemma IdMatches(stored: string, id: string)
    requires |stored| <= ID_LENGTH
    ensures StrnEqual(stored, id, ID_COMPARED) <==> stored == id
  {
    StrnEqualIsPrefixEquality(stored, id, ID_COMPARED);
  }

  datatype Validation = Unknown | Expired | Live(session: Session)

  class SessionTable {
    const slots: array<Session>
    var count: nat
    const maxSessions: nat
    const ttl: nat
    const idOf: (string, nat) -> string

    ghost predicate Valid()
      reads this, slots
    {
      && slots.Length == MAX_SLOTS && 1 <= maxSessions <= MAX_SLOTS && count <= maxSessions
      && forall i :: 0 <= i < count ==> |slots[i].id| <= ID_LENGTH && slots[i].lastActivity <= ULONG_MAX
                                        && slots[i].createdAt <= ULONG_MAX
    }

    /** A limit of zero means the default; the code does not guard a limit above the array's size. */
    constructor (limit: nat, ttl: nat, idOf: (string, nat) -> string)
      requires limit <= MAX_SLOTS
      ensures Valid() && fresh(slots) && count == 0
      ensures maxSessions == (if limit == 0 then MAX_SLOTS else limit) && this.ttl == ttl
    {
      slots := new Session[MAX_SLOTS](_ => ZEROED);
      count, maxSessions := 0, if limit == 0 then MAX_SLOTS else limit;
      this.ttl, this.idOf := ttl, idOf;
    }

    /** Scans for the least recently active session. */
    method FindOldest() returns (oldest: nat)
      requires Valid() && count > 0
      ensures IsOldest(slots[..count], oldest)
    {
      oldest := 0;
      var oldestTime := ULONG_MAX;
      for i := 0 to count
        invariant oldest < count && (i == 0 ==> oldest == 0)
        invariant forall j :: 0 <= j < i ==> oldestTime <= slots[j].lastActivity
        invariant (i > 0 && oldestTime == slots[oldest].lastActivity && oldest < i)
                  || (oldestTime == ULONG_MAX && oldest == 0)
        invariant forall j :: 0 <= j < oldest ==> oldestTime < slots[j].lastActivity
      {
        if slots[i].lastActivity < oldestTime {
          oldestTime := slots[i].lastActivity;
          oldest := i;
        }
      }
    }

    /** Removes the least recently active session; the last one takes its slot. */
    method Evict() returns (oldest: nat)
      requires Valid() && count > 0
      modifies this`count, slots
      ensures Valid() && count == old(count) - 1
      ensures IsOldest(old(slots[..count]), oldest)
      ensures slots[..count] == RemoveAt(old(slots[..count]), oldest)
    {
      oldest := FindOldest();
      ghost var ss := slots[..count];
      var last := slots[count - 1];
      slots[oldest] := ZEROED;
      slots[oldest] := if oldest == count - 1 then ZEROED else last;
      count := count - 1;
      assert slots[..count] == RemoveAt(ss, oldest);
    }

    /** Puts a session at the end. */
    method Push(s: Session)
      requires Valid() && count < maxSessions
      requires |s.id| <= ID_LENGTH && s.lastActivity <= ULONG_MAX && s.createdAt <= ULONG_MAX
      modifies this`count, slots
      ensures Valid() && slots[..count] == old(slots[..count]) + [s]
    {
      slots[count] := s;
      count := count + 1;
    }

    /**
     Adds a session. On a full table exactly one session goes, one with the least last activity,
     and every other session is kept as it was.
     */
    method Create(remote: string, auth: bool, crypto: bool, now: nat) returns (s: Session)
      requires Valid() && now <= ULONG_MAX
      modifies this`count, slots
      ensures Valid() && count == (if old(count) >= maxSessions then old(count) else old(count) + 1)
      ensures s == Session(Truncate(idOf(remote, now), ID_LENGTH), Truncate(remote, AGENT_LENGTH),
                           now, now, 0, auth, crypto)
      ensures old(count) < maxSessions ==> slots[..count] == old(slots[..count]) + [s]
      ensures old(count) >= maxSessions ==>
                exists i: nat :: IsOldest(old(slots[..count]), i) && Replaced(old(slots[..count]), slots[..count], i, s)
      ensures count > 0 && slots[..count][count - 1] == s
    {
      hide IsOldest, Replaced, RemoveAt, Truncate;
      ghost var ss := slots[..count];
      s := Session(Truncate(idOf(remote, now), ID_LENGTH), Truncate(remote, AGENT_LENGTH), now, now, 0, auth, crypto);
      if count >= maxSessions {
        var oldest := Evict();
        ReplacedBy(ss, oldest, s);
        Push(s);
      } else {
        Push(s);
      }
    }

    method Scan(id: string) returns (i: nat)
      requires Valid()
      ensures i == IndexOf(slots[..count], id)
    {
      hide IndexOf, StrnEqual;
      i := 0;
      while i < count
        invariant i <= count
        invariant forall j :: 0 <= j < i ==> slots[j].id != id
      {
        IdMatches(slots[i].id, id);
        if StrnEqual(slots[i].id, id, ID_COMPARED) {
          return;
        }
        i := i + 1;
      }
    }

    /** Refreshes a session, or wipes it when it is older than twice the token lifetime. */
    method Validate(id: string, now: nat) returns (r: Validation)
      requires Valid() && now <= ULONG_MAX
      modifies slots
      ensures Valid()
      ensures var ss := old(slots[..count]);
              var i := IndexOf(ss, id);
              if i == |ss| then r == Unknown && slots[..count] == ss
              else if Age(now, ss[i].createdAt) / 1000 > ttl * 2
              then r == Expired && slots[..count] == ss[i := ZEROED]
              else
                && r == Live(ss[i].(lastActivity := now, requests := ss[i].requests + 1))
                && slots[..count] == ss[i := r.session]
      ensures var ss := old(slots[..count]);
              var i := IndexOf(ss, id);
              i < |ss| && ss[i].createdAt <= now ==> (r.Live? <==> now < ss[i].createdAt + 1000 * (2 * ttl + 1))
    {
      hide IndexOf, Age;
      var i := Scan(id);
      if i == count {
        return Unknown;
      }
      LifetimeMeans(now, slots[i].createdAt, ttl);
      if Age(now, slots[i].createdAt) / 1000 > ttl * 2 {
        slots[i] := ZEROED;
        return Expired;
      }
      slots[i] := slots[i].(lastActivity := now, requests := slots[i].requests + 1);
      return Live(slots[i]);
    }

    /** Wipes a session; its slot stays counted and, being inactive since time zero, goes first. */
    method Destroy(id: string)
      requires Valid()
      modifies slots
      ensures Valid()
      ensures var ss := old(slots[..count]);
              var i := IndexOf(ss, id);
              slots[..count] == if i == |ss| then ss else ss[i := ZEROED]
    {
      hide IndexOf;
      var i := Scan(id);
      if i < count {
        slots[i] := ZEROED;
      }
    }
  }

  /** A wiped slot is evicted before any session that was ever active. */
  lemma WipedGoesFirst(ss: seq<Session>, i: nat, w: nat)
    requires IsOldest(ss, i) && w < |ss| && ss[w] == ZEROED
    ensures ss[i].lastActivity == 0
  {
  }
}

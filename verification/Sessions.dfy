/** Dashboard sessions of `service/auth.go`. Instants are nanoseconds; an operation that reads
    the clock twice gets both readings. */
module Sessions {
  import opened Wrappers

  const TTL := 900_000_000_000   // fifteen minutes

  // ---------------------------------------------------------------- the store

  function Purge(sessions: map<string, int>, now: int): map<string, int> {
    map k | k in sessions && now <= sessions[k] :: sessions[k]
  }

  function AfterLogin(sessions: map<string, int>, id: string, now: int, later: int): map<string, int> {
    Purge(sessions[id := now + TTL], later)
  }

  predicate Accepts(sessions: map<string, int>, id: string, now: int) {
    id != "" && id in sessions && now <= sessions[id]
  }

  predicate Shows(sessions: map<string, int>, id: string, now: int) {
    id != "" && id in sessions && now < sessions[id]
  }

  function AfterValidate(sessions: map<string, int>, id: string, now: int, later: int): map<string, int> {
    if Accepts(sessions, id, now) then sessions[id := later + TTL]
    else if id == "" then sessions
    else sessions - {id}
  }

  class PasswordAuth {
    var password: string
    var sessions: map<string, int>

    constructor (password: string)
      ensures this.password == password && sessions == map[]
    {
      this.password, sessions := password, map[];
    }

    /** `Login`; `id` is the random identifier drawn for the new session. */
    method Login(given: string, id: string, now: int, later: int) returns (r: Result<string>)
      modifies this`sessions
      ensures given != password ==> r.Err? && sessions == old(sessions)
      ensures given == password ==> r == Ok(id) && sessions == AfterLogin(old(sessions), id, now, later)
    {
      if given != password {
        return Err("invalid password");
      }
      CreateSessionLocked(id, now, later);
      r := Ok(id);
    }

    /** Enters the session, then walks the map in some order and removes what has expired. */
    method CreateSessionLocked(id: string, now: int, later: int)
      modifies this`sessions
      ensures sessions == AfterLogin(old(sessions), id, now, later)
    {
      sessions := sessions[id := now + TTL];
      ghost var all := sessions;
      var left := sessions.Keys;
      while left != {}
        invariant left <= sessions.Keys <= all.Keys
        invariant forall k | k in sessions :: sessions[k] == all[k]
        invariant forall k | k in all && k !in left :: k in sessions <==> later <= all[k]
        decreases left
      {
        var key :| key in left;
        left := left - {key};
        if later > sessions[key] {
          sessions := sessions - {key};
        }
      }
      assert sessions == Purge(all, later);
    }

    method ValidateSession(id: string, now: int, later: int) returns (ok: bool)
      modifies this`sessions
      ensures ok == Accepts(old(sessions), id, now)
      ensures sessions == AfterValidate(old(sessions), id, now, later)
    {
      if id == "" || id !in sessions {
        return false;
      }
      if now > sessions[id] {
        sessions := sessions - {id};
        return false;
      }
      sessions := sessions[id := later + TTL];
      ok := true;
    }

    method CheckSession(id: string, now: int) returns (ok: bool)
      ensures ok == Shows(sessions, id, now)
    {
      ok := id != "" && id in sessions && now < sessions[id];
    }
  }

  /** A session that is shown would also be accepted; the two differ only at the last instant. */
  lemma CheckAndValidateExactly(sessions: map<string, int>, id: string, now: int)
    ensures Shows(sessions, id, now) ==> Accepts(sessions, id, now)
    ensures Accepts(sessions, id, now) != Shows(sessions, id, now) <==>
            id != "" && id in sessions && now == sessions[id]
  {
  }

  // ---------------------------------------------------------------- runs

  datatype Event =
    | Login(id: string, now: int, later: int)       // with the right password
    | Validate(id: string, now: int, later: int)

  function Replay(es: seq<Event>): map<string, int> {
    if es == [] then map[]
    else
      var before, e := Replay(es[..|es| - 1]), es[|es| - 1];
      match e
      case Login(id, now, later) => AfterLogin(before, id, now, later)
      case Validate(id, now, later) => AfterValidate(before, id, now, later)
  }

  /** The clock never goes back, within an operation or from one to the next. */
  ghost predicate Timed(es: seq<Event>) {
    && (forall i | 0 <= i < |es| :: es[i].now <= es[i].later)
    && (forall i, j | 0 <= i < j < |es| :: es[i].later <= es[j].now)
  }

  /** The reference: when a session was last granted, by its login or by an accepted request.
      Nothing is ever removed. */
  function LastGrant(es: seq<Event>, id: string): Option<int> {
    if es == [] then None
    else
      var g, e := LastGrant(es[..|es| - 1], id), es[|es| - 1];
      if e.id != id then g
      else if e.Login? then Some(e.now)
      else if Alive(g, id, e.now) then Some(e.later)
      else g
  }

  /** The gap since the last grant is at most the lifetime. */
  predicate Alive(grant: Option<int>, id: string, now: int) {
    id != "" && grant.Some? && now - grant.value <= TTL
  }

  function End(es: seq<Event>): Option<int> {
    if es == [] then None else Some(es[|es| - 1].later)
  }

  /** What the store keeps about a session: its expiry, or nothing once it has expired. */
  ghost predicate Kept(sessions: map<string, int>, grant: Option<int>, id: string, end: Option<int>) {
    if id in sessions then grant.Some? && sessions[id] == grant.value + TTL
    else grant.Some? ==> end.Some? && grant.value + TTL < end.value
  }

  lemma LoginKeeps(sessions: map<string, int>, e: Event, grant: Option<int>, id: string, end: Option<int>)
    requires Kept(sessions, grant, id, end) && e.Login? && e.now <= e.later && (end.Some? ==> end.value <= e.now)
    ensures Kept(AfterLogin(sessions, e.id, e.now, e.later),
                 if e.id == id then Some(e.now) else grant, id, Some(e.later))
  {
  }

  lemma ValidateKeeps(sessions: map<string, int>, e: Event, grant: Option<int>, id: string, end: Option<int>)
    requires Kept(sessions, grant, id, end) && e.Validate? && e.now <= e.later && (end.Some? ==> end.value <= e.now)
    ensures Kept(AfterValidate(sessions, e.id, e.now, e.later),
                 if e.id == id && Alive(grant, id, e.now) then Some(e.later) else grant, id, Some(e.later))
  {
  }

  lemma {:induction false} RunKeeps(es: seq<Event>, id: string)
    requires Timed(es)
    ensures Kept(Replay(es), LastGrant(es, id), id, End(es))
  {
    if es == [] {
    } else {
      var front, e := es[..|es| - 1], es[|es| - 1];
      RunKeeps(front, id);
      if e.Login? {
        LoginKeeps(Replay(front), e, LastGrant(front, id), id, End(front));
      } else {
        ValidateKeeps(Replay(front), e, LastGrant(front, id), id, End(front));
      }
    }
  }

  /** In every run with a clock that does not go back, every answer is that of a store which
      never removes anything: a session is accepted exactly when the gap since its last grant
      is at most the lifetime, and shown exactly when it is less. Purging cannot be observed. */
  lemma AnswersAreThoseOfTheReference(es: seq<Event>, id: string, now: int)
    requires Timed(es) && (es != [] ==> es[|es| - 1].later <= now)
    ensures Accepts(Replay(es), id, now) <==> Alive(LastGrant(es, id), id, now)
    ensures Accepts(Replay(es), id, now) <==>
            id != "" && LastGrant(es, id).Some? && now - LastGrant(es, id).value <= 900_000_000_000
    ensures Shows(Replay(es), id, now) <==>
            Alive(LastGrant(es, id), id, now) && now != LastGrant(es, id).value + TTL
  {
    RunKeeps(es, id);
  }

  /** With a clock that goes back a purged session would be missed. */
  lemma PurgeShowsWhenClockGoesBack(id: string, other: string)
    requires id != "" && id != other
    ensures var es := [Login(id, 0, 0), Login(other, TTL + 1, TTL + 1)];
            !Accepts(Replay(es), id, 1) && Alive(LastGrant(es, id), id, 1)
  {
    var a, b := Login(id, 0, 0), Login(other, TTL + 1, TTL + 1);
    assert [a, b][..1] == [a] && [a][..0] == [];
    assert Replay([a]) == AfterLogin(map[], id, 0, 0);
    assert LastGrant([a], id) == Some(0);
    assert Replay([a, b]) == AfterLogin(Replay([a]), other, TTL + 1, TTL + 1);
    assert LastGrant([a, b], id) == Some(0);
  }

  /** A rejected session stays rejected until its next login, whatever is requested meanwhile. */
  lemma {:induction false} RejectedStaysRejected(es: seq<Event>, more: seq<Event>, id: string, now: int, end: int)
    requires !Alive(LastGrant(es, id), id, now) && now <= end
    requires forall i | 0 <= i < |more| :: now <= more[i].now && (more[i].Login? ==> more[i].id != id)
    ensures LastGrant(es + more, id) == LastGrant(es, id) && !Alive(LastGrant(es + more, id), id, end)
  {
    if more == [] {
      assert es + more == es;
    } else {
      RejectedStaysRejected(es, more[..|more| - 1], id, now, end);
      assert (es + more)[..|es + more| - 1] == es + more[..|more| - 1];
    }
  }

  /** What the reference counts as a grant: the login of the session, or a request that comes at
      most fifteen minutes after the last grant; other sessions do not matter. */
  lemma GrantsExactly(es: seq<Event>, e: Event, id: string)
    ensures var g := LastGrant(es, id);
            LastGrant(es + [e], id) ==
            if e.id != id then g
            else if e.Login? then Some(e.now)
            else if id != "" && g.Some? && e.now - g.value <= 900_000_000_000 then Some(e.later)
            else g
  {
    assert (es + [e])[..|es + [e]| - 1] == es;
  }
}

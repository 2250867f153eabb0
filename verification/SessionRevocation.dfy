/** Signed session cookies, their sliding re-issue, and their revocation by OpenID Connect
    Back-Channel Logout 1.0, over all runs with one cookie lifetime and a monotone clock. */
module SessionRevocation {
  import opened Ordering

  /** Instants and durations in nanoseconds; a cookie stores its expiry in whole seconds. */
  type Time = nat

  const SECOND: nat := 1_000_000_000

  function Unix(t: Time): nat {
    t / SECOND
  }

  datatype Cookie = Cookie(user: string, sid: string, expiresAt: nat)

  // The revocation store.

  datatype Store = Store(revoked: map<string, Time>, jtis: map<string, Time>)

  predicate Revoked(s: Store, sid: string, now: Time) {
    sid != "" && sid in s.revoked && now < s.revoked[sid]
  }

  function Collected(s: Store, now: Time): Store {
    Store(map k | k in s.revoked && !(now > s.revoked[k]) :: s.revoked[k],
          map k | k in s.jtis && !(now > s.jtis[k]) :: s.jtis[k])
  }

  /** Collection at `now` changes no answer given from then on. */
  lemma CollectionIsInvisible(s: Store, now: Time, later: Time, sid: string)
    requires now <= later
    ensures Revoked(Collected(s, now), sid, later) <==> Revoked(s, sid, later)
  {
  }

  class MemoryRevoker {
    var revoked: map<string, Time>
    var jtis: map<string, Time>

    constructor ()
      ensures View() == Store(map[], map[])
    {
      revoked, jtis := map[], map[];
    }

    function View(): Store
      reads this
    {
      Store(revoked, jtis)
    }

    method Revoke(sid: string, expiry: Time)
      modifies this
      ensures View() == old(View()).(revoked := old(revoked)[sid := expiry])
    {
      revoked := revoked[sid := expiry];
    }

    method IsRevoked(sid: string, now: Time) returns (r: bool)
      ensures r <==> Revoked(View(), sid, now)
    {
      if sid == "" {
        return false;
      }
      if sid !in revoked {
        return false;
      }
      return now < revoked[sid];
    }

    method SeenJTI(jti: string, expiry: Time) returns (seen: bool)
      modifies this
      ensures seen <==> jti != "" && jti in old(jtis)
      ensures View() == if jti == "" || seen then old(View()) else old(View()).(jtis := old(jtis)[jti := expiry])
    {
      if jti == "" {
        return false;
      }
      if jti in jtis {
        return true;
      }
      jtis := jtis[jti := expiry];
      return false;
    }

    /** One tick of the collector. */
    method Gc(now: Time)
      modifies this
      ensures View() == Collected(old(View()), now)
    {
      revoked := DropExpired(revoked, now);
      jtis := DropExpired(jtis, now);
    }
  }

  method DropExpired(m: map<string, Time>, now: Time) returns (r: map<string, Time>)
    ensures r == map k | k in m && !(now > m[k]) :: m[k]
  {
    r := m;
    var todo := m.Keys;
    while todo != {}
      invariant todo <= m.Keys
      invariant r == map k | k in m && (k in todo || !(now > m[k])) :: m[k]
      decreases todo
    {
      var k :| k in todo;
      todo := todo - {k};
      if now > m[k] {
        r := r - {k};
      }
    }
  }

  // The logout endpoint.

  datatype LogoutToken = LogoutToken(hasEvent: bool, hasNonce: bool, sid: string, sub: string, jti: string,
      expiry: Option<Time>)

  datatype Answer = Ok200 | BadRequest400 | NotImplemented501

  function JtiExpiry(token: LogoutToken, now: Time, ttl: nat): Time {
    if token.expiry.Some? then token.expiry.value else now + ttl
  }

  /** What the endpoint does with a token whose signature has been verified. */
  function LogoutStep(s: Store, token: LogoutToken, now: Time, ttl: nat): (Store, Answer) {
    if !token.hasEvent || token.hasNonce || (token.sid == "" && token.sub == "") then (s, BadRequest400)
    else if token.jti != "" && token.jti in s.jtis then (s, Ok200)
    else
      var jtiExpiry := JtiExpiry(token, now, ttl);
      var s' := if token.jti == "" then s else s.(jtis := s.jtis[token.jti := jtiExpiry]);
      if token.sid == "" then (s', NotImplemented501)
      else (s'.(revoked := s'.revoked[token.sid := now + ttl]), Ok200)
  }

  method HandleBackchannelLogout(revoker: MemoryRevoker, token: LogoutToken, now: Time, ttl: nat)
    returns (answer: Answer)
    modifies revoker
    ensures (revoker.View(), answer) == LogoutStep(old(revoker.View()), token, now, ttl)
    // refused, with nothing changed: no logout event, a nonce as identity tokens have, or nobody named
    ensures answer == BadRequest400 <==> !token.hasEvent || token.hasNonce || (token.sid == "" && token.sub == "")
    ensures answer == BadRequest400 ==> revoker.View() == old(revoker.View())
    ensures answer == NotImplemented501 ==> token.sid == "" && revoker.revoked == old(revoker.revoked)
  {
    if !token.hasEvent {
      return BadRequest400;
    }
    if token.hasNonce {
      return BadRequest400;
    }
    if token.sid == "" && token.sub == "" {
      return BadRequest400;
    }
    var jtiExpiry := if token.expiry.Some? then token.expiry.value else now + ttl;
    var seen := revoker.SeenJTI(token.jti, jtiExpiry);
    if seen {
      return Ok200;
    }
    if token.sid == "" {
      return NotImplemented501;
    }
    revoker.Revoke(token.sid, now + ttl);
    return Ok200;
  }

  /** Each answer, and which tokens get it. A refusal changes nothing, and an unrevoked session is
      revoked only by a logout token that names it. */
  lemma LogoutRefuses(s: Store, token: LogoutToken, now: Time, ttl: nat)
    ensures var (s', answer) := LogoutStep(s, token, now, ttl);
            var seen := token.jti != "" && token.jti in s.jtis;
            && (answer == BadRequest400 <==> !token.hasEvent || token.hasNonce || (token.sid == "" && token.sub == ""))
            && (answer == NotImplemented501 <==> SubjectOnly(token) && !seen)
            && (answer == BadRequest400 || seen ==> s' == s)
            && (answer != BadRequest400 && token.jti != "" && !seen ==>
                  s'.jtis == s.jtis[token.jti := if token.expiry.Some? then token.expiry.value else now + ttl])
            && (token.jti == "" ==> s'.jtis == s.jtis)
            && forall sid, t: Time :: Revoked(s', sid, t) && !Revoked(s, sid, t) ==>
                 token.hasEvent && !token.hasNonce && token.sid == sid && t < now + ttl
  {
  }

  /** A 200 to a token that was not seen before means its session is revoked for a full cookie
      lifetime from now, no longer and no shorter; no other session's answer changes, ever; and a
      repeated token changes nothing. */
  lemma LogoutAnswers(s: Store, token: LogoutToken, now: Time, ttl: nat)
    ensures var (s', answer) := LogoutStep(s, token, now, ttl);
            && (answer == Ok200 && (token.jti == "" || token.jti !in s.jtis) ==>
                  forall t: Time :: Revoked(s', token.sid, t) <==> t < now + ttl)
            && (forall sid, t: Time :: sid != token.sid ==> (Revoked(s', sid, t) <==> Revoked(s, sid, t)))
            && (forall t: Time :: Revoked(s, token.sid, t) && t < now + ttl ==> Revoked(s', token.sid, t))
            && (token.jti != "" && token.jti in s.jtis ==> s' == s)
  {
  }

  // The middleware.

  function NewCookie(user: string, sid: string, now: Time, ttl: nat): Cookie {
    Cookie(user, sid, Unix(now + ttl))
  }

  datatype Outcome = Unauthenticated | SessionRevoked | Granted(reissued: Option<Cookie>)

  /** What the middleware decides about a request that presents `c`: the cookie counts up to
      and including the second of its expiry; past half its life it is issued again. */
  function Decide(s: Store, c: Cookie, now: Time, ttl: nat, freshSid: string): Outcome {
    if Unix(now) > c.expiresAt then Unauthenticated
    else if Revoked(s, c.sid, now) then SessionRevoked
    else
      var remaining: int := c.expiresAt * SECOND - now;
      if remaining < ttl / 2 || remaining > ttl
      then Granted(Some(NewCookie(c.user, if c.sid == "" then freshSid else c.sid, now, ttl)))
      else Granted(None)
  }

  /** Who is let in has a cookie in its last second at the latest and no revocation in force. A
      cookie that is issued again keeps user and session and lasts a lifetime from now: longer than
      the one it replaces, unless that outlived the lifetime. */
  method Authenticate(revoker: MemoryRevoker, c: Cookie, now: Time, ttl: nat, freshSid: string) returns (r: Outcome)
    ensures r == Decide(revoker.View(), c, now, ttl, freshSid)
    ensures r.Granted? <==> Unix(now) <= c.expiresAt && !Revoked(revoker.View(), c.sid, now)
    ensures r.Granted? && r.reissued.Some? ==>
              var c' := r.reissued.value;
              && c'.user == c.user && (c.sid != "" ==> c'.sid == c.sid) && c'.expiresAt == Unix(now + ttl)
              && (c.sid == "" ==> c'.sid == freshSid)
              && (c.expiresAt <= c'.expiresAt || c.expiresAt * SECOND > now + ttl)
    // issued again exactly in the second half of its life, or if it outlives a lifetime
    ensures r.Granted? ==>
              (r.reissued.Some? <==>
               c.expiresAt * SECOND < now + ttl / 2 || now + ttl < c.expiresAt * SECOND)
    ensures r == SessionRevoked <==> Unix(now) <= c.expiresAt && Revoked(revoker.View(), c.sid, now)
  {
    if Unix(now) > c.expiresAt {
      return Unauthenticated;
    }
    var revoked := revoker.IsRevoked(c.sid, now);
    if revoked {
      return SessionRevoked;
    }
    var reissued: Option<Cookie> := None;
    var remaining: int := c.expiresAt * SECOND - now;
    if remaining < ttl / 2 || remaining > ttl {
      var sid := c.sid;
      if sid == "" {
        sid := freshSid;
      }
      reissued := Some(NewCookie(c.user, sid, now, ttl));
    }
    return Granted(reissued);
  }

  /** A cookie just issued is not issued again at once, if a lifetime is two seconds or more. */
  lemma ReissueSettles(s: Store, user: string, sid: string, now: Time, ttl: nat, freshSid: string)
    requires !Revoked(s, sid, now)
    ensures 2 * SECOND <= ttl ==> Decide(s, NewCookie(user, sid, now, ttl), now, ttl, freshSid) == Granted(None)
  {
    var e := Unix(now + ttl);
    assert e * SECOND <= now + ttl < (e + 1) * SECOND;
    assert Unix(now) <= e;
  }

  // Whole runs.

  /** The clock, the store, and every cookie ever signed. */
  datatype System = System(now: Time, store: Store, cookies: set<Cookie>)

  datatype Event =
    | Tick(to: Time)
    | Login(user: string, newSid: string)
    | Request(cookie: Cookie, freshSid: string)
    | Logout(token: LogoutToken)
    | Collect

  /** The clock does not go back and only signed cookies get past the signature check. */
  predicate Enabled(s: System, e: Event) {
    match e
    case Tick(to) => s.now <= to
    case Login(_, sid) => sid != ""
    case Request(c, freshSid) => c in s.cookies && freshSid != ""
    case Logout(_) => true
    case Collect => true
  }

  function Step(s: System, e: Event, ttl: nat): System {
    match e
    case Tick(to) => s.(now := to)
    case Login(user, sid) => s.(cookies := s.cookies + {NewCookie(user, sid, s.now, ttl)})
    case Request(c, freshSid) =>
      var r := Decide(s.store, c, s.now, ttl, freshSid);
      if r.Granted? && r.reissued.Some? then s.(cookies := s.cookies + {r.reissued.value}) else s
    case Logout(token) => s.(store := LogoutStep(s.store, token, s.now, ttl).0)
    case Collect => s.(store := Collected(s.store, s.now))
  }

  function After(s: System, es: seq<Event>, ttl: nat): System
    decreases |es|
  {
    if es == [] then s else After(Step(s, es[0], ttl), es[1..], ttl)
  }

  /** No login or freshly minted session uses `sid` again. */
  predicate Reuses(e: Event, sid: string) {
    (e.Login? && e.newSid == sid) || (e.Request? && e.freshSid == sid)
  }

  /** The event is a request of session `sid` that is let in. */
  predicate LetsIn(s: System, e: Event, ttl: nat, sid: string) {
    e.Request? && e.cookie.sid == sid && Decide(s.store, e.cookie, s.now, ttl, e.freshSid).Granted?
  }

  /** The events can happen from `s`, one after the other. */
  ghost predicate IsRun(s: System, es: seq<Event>, ttl: nat)
    decreases |es|
  {
    es == [] || (Enabled(s, es[0]) && IsRun(Step(s, es[0], ttl), es[1..], ttl))
  }

  /** Main result: over every run, a session becomes revoked only by a token with the logout event,
      without a nonce, that names it. */
  lemma {:induction false} RevokedOnlyByLogout(s: System, es: seq<Event>, ttl: nat, sid: string, t: Time)
    requires !Revoked(s.store, sid, t) && Revoked(After(s, es, ttl).store, sid, t)
    ensures exists e :: e in es && e.Logout? && e.token.hasEvent && !e.token.hasNonce && e.token.sid == sid
    decreases |es|
  {
    var s' := Step(s, es[0], ttl);
    if Revoked(s'.store, sid, t) {
      assert es[0] in es;
    } else {
      RevokedOnlyByLogout(s', es[1..], ttl, sid, t);
    }
  }

  // A logout token that names no session.

  /** The collector runs after the token's id has expired. */
  ghost predicate CollectsPast(s: System, es: seq<Event>, ttl: nat, expiry: Time)
    decreases |es|
  {
    es != [] && ((es[0].Collect? && s.now > expiry) || CollectsPast(Step(s, es[0], ttl), es[1..], ttl, expiry))
  }

  lemma {:induction false} ClockGrows(s: System, es: seq<Event>, ttl: nat)
    requires IsRun(s, es, ttl)
    ensures s.now <= After(s, es, ttl).now
    decreases |es|
  {
    if es != [] {
      ClockGrows(Step(s, es[0], ttl), es[1..], ttl);
    }
  }

  lemma {:induction false} NotPastYet(s: System, es: seq<Event>, ttl: nat, expiry: Time)
    requires IsRun(s, es, ttl) && After(s, es, ttl).now <= expiry
    ensures !CollectsPast(s, es, ttl, expiry)
    decreases |es|
  {
    if es != [] {
      ClockGrows(s, es, ttl);
      NotPastYet(Step(s, es[0], ttl), es[1..], ttl, expiry);
    }
  }

  /** The id stays as recorded, repeated tokens included, until the collector runs past its expiry. */
  lemma {:induction false} RecordedUntil(s: System, es: seq<Event>, ttl: nat, jti: string, expiry: Time)
    requires jti in s.store.jtis && s.store.jtis[jti] == expiry && !CollectsPast(s, es, ttl, expiry)
    ensures jti in After(s, es, ttl).store.jtis
    decreases |es|
  {
    if es != [] {
      RecordedUntil(Step(s, es[0], ttl), es[1..], ttl, jti, expiry);
    }
  }

  lemma {:induction false} ForgottenAfter(s: System, es: seq<Event>, ttl: nat, jti: string, expiry: Time)
    requires jti in s.store.jtis ==> s.store.jtis[jti] == expiry && CollectsPast(s, es, ttl, expiry)
    requires forall e :: e in es && e.Logout? ==> e.token.jti != jti
    ensures jti !in After(s, es, ttl).store.jtis
    decreases |es|
  {
    if es != [] {
      var s' := Step(s, es[0], ttl);
      assert es[0] in es;
      ForgottenAfter(s', es[1..], ttl, jti, expiry);
    }
  }

  predicate SubjectOnly(token: LogoutToken) {
    token.hasEvent && !token.hasNonce && token.sid == "" && token.sub != ""
  }

  /** Main result: the documented refusal of a token without a session id does not survive a retry.
      The token's id is recorded before the refusal, so after any run in between the same token is
      answered with 200, although nothing was revoked, exactly when it has an id and the collector
      has not run past the recorded expiry (or the token was presented again since). Until that
      expiry the collector cannot have; after it the signature check turns the token away. */
  lemma SubjectOnlyRetry(s: System, token: LogoutToken, es: seq<Event>, ttl: nat)
    requires SubjectOnly(token) && (token.jti == "" || token.jti !in s.store.jtis)
    requires IsRun(Step(s, Logout(token), ttl), es, ttl)
    ensures LogoutStep(s.store, token, s.now, ttl).1 == NotImplemented501
    ensures var s1 := Step(s, Logout(token), ttl); var s2 := After(s1, es, ttl);
            var (s3, answer) := LogoutStep(s2.store, token, s2.now, ttl);
            var past := CollectsPast(s1, es, ttl, JtiExpiry(token, s.now, ttl));
            && s3.revoked == s2.store.revoked
            && (token.jti == "" ==> answer == NotImplemented501)
            && (token.jti != "" && !past ==> answer == Ok200)
            && (past && (forall e :: e in es && e.Logout? ==> e.token.jti != token.jti) ==> answer == NotImplemented501)
            && (s2.now <= JtiExpiry(token, s.now, ttl) ==> !past)
  {
    var s1, expiry := Step(s, Logout(token), ttl), JtiExpiry(token, s.now, ttl);
    if After(s1, es, ttl).now <= expiry {
      NotPastYet(s1, es, ttl, expiry);
    }
    if token.jti != "" {
      if !CollectsPast(s1, es, ttl, expiry) {
        RecordedUntil(s1, es, ttl, token.jti, expiry);
      } else if forall e :: e in es && e.Logout? ==> e.token.jti != token.jti {
        ForgottenAfter(s1, es, ttl, token.jti, expiry);
      }
    }
  }

  // A session that is revoked.

  ghost predicate NeverLetsIn(s: System, es: seq<Event>, ttl: nat, sid: string)
    decreases |es|
  {
    es == [] || (!LetsIn(s, es[0], ttl, sid) && NeverLetsIn(Step(s, es[0], ttl), es[1..], ttl, sid))
  }

  /** However the system goes on from `s`, session `sid` is not let in again. */
  ghost predicate RevokedForGood(s: System, ttl: nat, sid: string) {
    forall es :: IsRun(s, es, ttl) && (forall e :: e in es ==> !Reuses(e, sid)) ==> NeverLetsIn(s, es, ttl, sid)
  }

  /** Every cookie of the session dies in a second before that of `until`, and until then the
      store knows that the session is revoked. */
  ghost predicate Dead(s: System, ttl: nat, sid: string, until: Time) {
    && until <= s.now + ttl
    && (forall c :: c in s.cookies && c.sid == sid ==> c.expiresAt < Unix(until))
    && if sid in s.store.revoked then until <= s.store.revoked[sid] else until < s.now
  }

  lemma DeadIsNotLetIn(s: System, ttl: nat, sid: string, until: Time, e: Event)
    requires Dead(s, ttl, sid, until) && sid != "" && Enabled(s, e)
    ensures !LetsIn(s, e, ttl, sid)
  {
    if e.Request? && e.cookie.sid == sid && Unix(s.now) <= e.cookie.expiresAt {
      assert Unix(s.now) < Unix(until);
      assert s.now < until;
    }
  }

  lemma DeadStays(s: System, ttl: nat, sid: string, until: Time, e: Event)
    requires Dead(s, ttl, sid, until) && sid != "" && Enabled(s, e) && !Reuses(e, sid)
    ensures Dead(Step(s, e, ttl), ttl, sid, until)
  {
    DeadIsNotLetIn(s, ttl, sid, until, e);
  }

  lemma {:induction false} DeadForGood(s: System, ttl: nat, sid: string, until: Time, es: seq<Event>)
    requires Dead(s, ttl, sid, until) && sid != ""
    requires IsRun(s, es, ttl) && forall e :: e in es ==> !Reuses(e, sid)
    ensures NeverLetsIn(s, es, ttl, sid)
    decreases |es|
  {
    if es != [] {
      DeadIsNotLetIn(s, ttl, sid, until, es[0]);
      DeadStays(s, ttl, sid, until, es[0]);
      DeadForGood(Step(s, es[0], ttl), ttl, sid, until, es[1..]);
    }
  }

  /** Main result: a revocation made at `s.now` shuts the session out of every later run if
      and only if no cookie of the session expires in the very second in which the revocation
      does (cookies keep whole seconds and count through the last one; revocations do not). */
  lemma RevokedForGoodIff(s: System, ttl: nat, sid: string)
    requires sid != "" && sid in s.store.revoked && s.store.revoked[sid] == s.now + ttl
    ensures RevokedForGood(s, ttl, sid) <==>
            forall c :: c in s.cookies && c.sid == sid ==> c.expiresAt < Unix(s.now + ttl)
  {
    var until := s.now + ttl;
    if forall c :: c in s.cookies && c.sid == sid ==> c.expiresAt < Unix(until) {
      forall es | IsRun(s, es, ttl) && (forall e :: e in es ==> !Reuses(e, sid)) ensures NeverLetsIn(s, es, ttl, sid) {
        DeadForGood(s, ttl, sid, until, es);
      }
    } else {
      var c :| c in s.cookies && c.sid == sid && c.expiresAt >= Unix(until);
      BoundaryRun(s, ttl, sid, c);
    }
  }

  /** The run on which the boundary shows: wait until the revocation ends, then ask. */
  lemma BoundaryRun(s: System, ttl: nat, sid: string, c: Cookie)
    requires sid != "" && sid in s.store.revoked && s.store.revoked[sid] == s.now + ttl
    requires c in s.cookies && c.sid == sid && c.expiresAt >= Unix(s.now + ttl)
    ensures !RevokedForGood(s, ttl, sid)
  {
    var other := sid + "x";
    assert |other| == |sid| + 1;
    var tick, ask := Tick(s.now + ttl), Request(c, other);
    var es := [tick, ask];
    var s1 := Step(s, tick, ttl);
    assert es[1..] == [ask] && [ask][1..] == [];
    assert IsRun(Step(s1, ask, ttl), [], ttl);
    assert IsRun(s1, [ask], ttl);
    assert IsRun(s, es, ttl);
    assert LetsIn(s1, ask, ttl, sid);
    assert !NeverLetsIn(s1, [ask], ttl, sid);
    assert !NeverLetsIn(s, es, ttl, sid);
  }

  /** A session none of whose cookies was issued during the second before the revocation is
      shut out for good. */
  lemma RevokedAfterASecond(s: System, ttl: nat, sid: string)
    requires sid != "" && sid in s.store.revoked && s.store.revoked[sid] == s.now + ttl
    requires forall c :: c in s.cookies && c.sid == sid ==>
               exists t: Time :: t + SECOND <= s.now && c == NewCookie(c.user, sid, t, ttl)
    ensures RevokedForGood(s, ttl, sid)
  {
    forall c | c in s.cookies && c.sid == sid ensures c.expiresAt < Unix(s.now + ttl) {
      var t: Time :| t + SECOND <= s.now && c == NewCookie(c.user, sid, t, ttl);
      assert Unix(t + ttl + SECOND) == Unix(t + ttl) + 1;
    }
    RevokedForGoodIff(s, ttl, sid);
  }

  /** A concrete run outside that condition: login at 0.2 s, logout at 0.3 s, a lifetime of
      ten seconds. At 10.3 s the session is let in, and its cookie is issued again. */
  lemma LoginAndLogoutInOneSecond()
    ensures var ttl := 10 * SECOND;
            var c := NewCookie("u", "s", 200_000_000, ttl);
            var token := LogoutToken(true, false, "s", "u", "j", None);
            var s := Step(System(300_000_000, Store(map[], map[]), {c}), Logout(token), ttl);
            && Revoked(s.store, "s", s.now)
            && Decide(s.store, c, 10_300_000_000, ttl, "x") == Granted(Some(NewCookie("u", "s", 10_300_000_000, ttl)))
            && !RevokedForGood(s, ttl, "s")
  {
    var ttl := 10 * SECOND;
    var c := NewCookie("u", "s", 200_000_000, ttl);
    var token := LogoutToken(true, false, "s", "u", "j", None);
    var s := Step(System(300_000_000, Store(map[], map[]), {c}), Logout(token), ttl);
    assert c in s.cookies && s.now + ttl == 10_300_000_000;
    BoundaryRun(s, ttl, "s", c);
  }
}

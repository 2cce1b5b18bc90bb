/** The single-use link store (internal/auth/magiclink.go). */
module MagicLinkStore {
  /** Times are nanoseconds. */
  datatype Link = Link(email: string, expiresAt: nat)

  function Recorded(links: map<string, Link>, linkId: string, link: Link): map<string, Link> {
    links[linkId := link]
  }

  /** A link is redeemable until the instant it expires, that instant included. */
  predicate Redeemable(links: map<string, Link>, linkId: string, now: nat) {
    linkId in links && now <= links[linkId].expiresAt
  }

  /** Redeeming removes the link; a refused link stays. */
  function Redeemed(links: map<string, Link>, linkId: string, now: nat): map<string, Link> {
    if Redeemable(links, linkId, now) then links - {linkId} else links
  }

  class MagicLinkEntry {
    const email: string
    const expiresAt: nat
    var used: bool

    constructor (email: string, expiresAt: nat)
      ensures this.email == email && this.expiresAt == expiresAt && !used
    {
      this.email := email;
      this.expiresAt := expiresAt;
      used := false;
    }
  }

  class InMemoryMagicLinkStore {
    var links: map<string, MagicLinkEntry>

    /** No stored entry is ever marked used, and no two ids share an entry. */
    ghost predicate Valid()
      reads this, links.Values
    {
      && (forall id | id in links :: !links[id].used)
      && (forall a, b | a in links && b in links && a != b :: links[a] != links[b])
    }

    ghost function Contents(): map<string, Link>
      reads this, links.Values
    {
      map id | id in links :: Link(links[id].email, links[id].expiresAt)
    }

    constructor ()
      ensures Valid() && Contents() == map[] && links == map[]
    {
      links := map[];
    }

    method Record(linkId: string, email: string, expiresAt: nat)
      requires Valid()
      modifies this
      ensures Valid()
      ensures Contents() == Recorded(old(Contents()), linkId, Link(email, expiresAt))
      ensures links.Keys == old(links.Keys) + {linkId}
      ensures links[linkId].email == email && links[linkId].expiresAt == expiresAt
      ensures forall e | e in links.Values :: e in old(links.Values) || fresh(e)
    {
      var entry := new MagicLinkEntry(email, expiresAt);
      links := links[linkId := entry];
    }

    /** The email argument plays no part. */
    method Validate(linkId: string, email: string, now: nat) returns (ok: bool)
      requires Valid()
      modifies this, links.Values
      ensures Valid()
      ensures ok == Redeemable(old(Contents()), linkId, now)
      ensures ok <==> linkId in old(links) && now <= old(links)[linkId].expiresAt
      ensures links == if ok then old(links) - {linkId} else old(links)
      ensures Contents() == Redeemed(old(Contents()), linkId, now)
      ensures links.Values <= old(links.Values)
    {
      if linkId !in links || links[linkId].used || now > links[linkId].expiresAt {
        return false;
      }
      var entry := links[linkId];
      entry.used := true;
      links := links - {linkId};
      ok := true;
    }
  }
}

/**
 Sign-in by mailed link (internal/auth/authn.go): links are signed, recorded and mailed; a request
 that presents one is verified, redeems it in the store and is given a session. Any number of
 requests run interleaved, from either entry point, while the clock goes on.
 */
module MagicLinks {
  import opened Wrappers
  import opened MagicLinkStore

  const SECOND: nat := 1_000_000_000
  const LINK_LIFETIME: nat := 15 * 60 * SECOND
  const SESSION_LIFETIME: nat := 30 * 24 * 60 * 60 * SECOND

  /** Times inside a token are whole seconds. */
  function Truncate(time: nat): (t: nat)
    ensures t <= time < t + 1_000_000_000 && t % 1_000_000_000 == 0
  {
    time / SECOND * SECOND
  }

  /** The tokens signed with the web key; nobody else can make one. */
  datatype Token =
    | Magic(linkId: string, email: string, exp: nat)
    | Session(email: string, exp: nat)

  /** A token read as magic-link claims: a session token has no link id. */
  function LinkIdOf(token: Token): string {
    if token.Magic? then token.linkId else ""
  }

  /** verifyToken: only a session token of a known email speaks for a user. */
  function VerifyToken(token: Token, now: nat, emailToUser: map<string, string>): Option<string> {
    match token
    case Magic(_, _, _) => None
    case Session(email, exp) => if email in emailToUser && now < exp then Some(emailToUser[email]) else None
  }

  datatype EntryPoint = Rpc | Web

  /** Where a request stands. */
  datatype Pc =
    | Free
    | Signed(linkId: string)
    | Verified(linkId: string, email: string, entry: EntryPoint, presentedAt: nat)
    | Holding(linkId: string, email: string, entry: EntryPoint, presentedAt: nat, redeemedAt: nat)

  /** Where a link id is. No step reads this; it is kept to state what happens to each id. */
  datatype Place = SignedBy(t: nat) | Stored | HeldBy(t: nat) | Spent(k: nat) | Lost

  datatype Issued = Issued(email: string, signedAt: nat, expiresAt: nat, place: Place)

  datatype SessionRecord = SessionRecord(
    linkId: string,
    email: string,
    entry: EntryPoint,
    presentedAt: nat,
    redeemedAt: nat,
    issuedAt: nat)

  datatype State = State(
    now: nat,
    links: map<string, Link>,
    ids: map<string, Issued>,
    tokens: set<Token>,
    requests: seq<Pc>,
    sessions: seq<SessionRecord>)

  datatype Event =
    | Tick(elapsed: nat)
    | Sign(t: nat, email: string, linkId: string)
    | Store(t: nat)
    | Present(t: nat, token: Token, entry: EntryPoint)
    | Redeem(t: nat)
    | Issue(t: nat)
    | Restart

  function Start(requests: nat): State {
    State(0, map[], map[], {}, seq(requests, _ => Free), [])
  }

  function At(s: State, t: nat, pc: Pc): State
    requires t < |s.requests|
  {
    s.(requests := s.requests[t := pc])
  }

  function Moved(ids: map<string, Issued>, id: string, place: Place): map<string, Issued>
    requires id in ids
  {
    ids[id := ids[id].(place := place)]
  }

  predicate IsAt(s: State, t: nat) {
    t < |s.requests|
  }

  /**
   One step; None when it is not possible. A link id is fresh and not empty, only known emails get
   links, and only tokens that were handed out can be presented.
   */
  function Next(s: State, event: Event, emailToUser: map<string, string>): Option<State> {
    match event
    case Tick(elapsed) => Some(s.(now := s.now + elapsed))
    case Sign(t, email, linkId) =>
      if !IsAt(s, t) || !s.requests[t].Free? || email !in emailToUser || linkId in s.ids || linkId == "" then None
      else Some(At(s, t, Signed(linkId)).(
                  ids := s.ids[linkId := Issued(email, s.now, s.now + LINK_LIFETIME, SignedBy(t))]))
    case Store(t) =>
      if !IsAt(s, t) || !s.requests[t].Signed? || s.requests[t].linkId !in s.ids then None else
        var id := s.requests[t].linkId;
        var issued := s.ids[id];
        Some(At(s, t, Free).(links := Recorded(s.links, id, Link(issued.email, issued.expiresAt)),
                             ids := Moved(s.ids, id, Stored),
                             tokens := s.tokens + {Magic(id, issued.email, Truncate(issued.expiresAt))}))
    case Present(t, token, entry) =>
      if !IsAt(s, t) || !s.requests[t].Free? || token !in s.tokens then None
      else if s.now < token.exp then Some(At(s, t, Verified(LinkIdOf(token), token.email, entry, s.now)))
      else Some(s)
    case Redeem(t) =>
      if !IsAt(s, t) || !s.requests[t].Verified? then None else
        var Verified(id, email, entry, at) := s.requests[t];
        if !Redeemable(s.links, id, s.now) then Some(At(s, t, Free))
        else Some(At(s, t, Holding(id, email, entry, at, s.now)).(
                    links := Redeemed(s.links, id, s.now),
                    ids := if id in s.ids then Moved(s.ids, id, HeldBy(t)) else s.ids))
    case Issue(t) =>
      if !IsAt(s, t) || !s.requests[t].Holding? then None else
        var Holding(id, email, entry, presentedAt, redeemedAt) := s.requests[t];
        Some(At(s, t, Free).(sessions := s.sessions + [SessionRecord(id, email, entry, presentedAt, redeemedAt, s.now)],
                             ids := if id in s.ids then Moved(s.ids, id, Spent(|s.sessions|)) else s.ids,
                             tokens := s.tokens + {Session(email, Truncate(s.now + SESSION_LIFETIME))}))
    case Restart =>
      // The store and the requests under way are gone; mailed links and sessions are not.
      Some(s.(links := map[], requests := seq(|s.requests|, _ => Free),
              ids := map id | id in s.ids ::
                       if s.ids[id].place.Spent? then s.ids[id] else s.ids[id].(place := Lost)))
  }

  function Run(s: State, events: seq<Event>, emailToUser: map<string, string>): Option<State>
    decreases |events|
  {
    if events == [] then Some(s) else
      var next :- Next(s, events[0], emailToUser);
      Run(next, events[1..], emailToUser)
  }

  // ---- invariant ---------------------------------------------------------------------------

  /** A link was presented before its token and redeemed before its entry expired, in that order. */
  predicate InTime(issued: Issued, presentedAt: nat, redeemedAt: nat) {
    issued.signedAt <= presentedAt < Truncate(issued.expiresAt) && presentedAt <= redeemedAt <= issued.expiresAt
  }

  ghost predicate RequestInv(s: State, t: nat, pc: Pc) {
    match pc
    case Free => true
    case Signed(id) => id in s.ids && s.ids[id].place == SignedBy(t)
    case Verified(id, email, _, presentedAt) =>
      id != "" ==>
        && id in s.ids && s.ids[id].email == email
        && s.ids[id].signedAt <= presentedAt < Truncate(s.ids[id].expiresAt) && presentedAt <= s.now
    case Holding(id, email, _, presentedAt, redeemedAt) =>
      && id in s.ids && s.ids[id].email == email && s.ids[id].place == HeldBy(t)
      && InTime(s.ids[id], presentedAt, redeemedAt) && redeemedAt <= s.now
  }

  ghost predicate SessionInv(s: State, k: nat, session: SessionRecord) {
    && session.linkId in s.ids
    && var issued := s.ids[session.linkId];
       && issued.place == Spent(k) && issued.email == session.email
       && InTime(issued, session.presentedAt, session.redeemedAt)
       && session.redeemedAt <= session.issuedAt <= s.now
  }

  /** A session was given to that email whose token expires then. */
  predicate HasSession(s: State, email: string, exp: nat) {
    exists k | 0 <= k < |s.sessions| ::
      s.sessions[k].email == email && exp == Truncate(s.sessions[k].issuedAt + SESSION_LIFETIME)
  }

  ghost predicate TokenInv(s: State, token: Token) {
    match token
    case Magic(id, email, exp) =>
      && id in s.ids && email == s.ids[id].email && exp == Truncate(s.ids[id].expiresAt) && !s.ids[id].place.SignedBy?
    case Session(email, exp) => HasSession(s, email, exp)
  }

  ghost predicate IdInv(s: State, id: string, emailToUser: map<string, string>) {
    id in s.ids ==>
      && s.ids[id].email in emailToUser
      && s.ids[id].signedAt <= s.now && s.ids[id].expiresAt == s.ids[id].signedAt + LINK_LIFETIME
  }

  ghost predicate LinkInv(s: State, id: string) {
    && (id in s.links <==> id in s.ids && s.ids[id].place == Stored)
    && (id in s.links ==> s.links[id] == Link(s.ids[id].email, s.ids[id].expiresAt))
  }

  ghost predicate Inv(s: State, emailToUser: map<string, string>) {
    && "" !in s.ids
    && (forall id :: IdInv(s, id, emailToUser))
    && (forall id :: LinkInv(s, id))
    && (forall t: nat | t < |s.requests| :: RequestInv(s, t, s.requests[t]))
    && (forall k: nat | k < |s.sessions| :: SessionInv(s, k, s.sessions[k]))
    && (forall token | token in s.tokens :: TokenInv(s, token))
  }

  /** The facts about the request that takes a step and the link it works on. */
  lemma Mover(s: State, event: Event, emailToUser: map<string, string>)
    requires Inv(s, emailToUser) && !event.Tick? && !event.Restart? && IsAt(s, event.t)
    ensures RequestInv(s, event.t, s.requests[event.t])
    ensures !s.requests[event.t].Free? ==> LinkInv(s, s.requests[event.t].linkId)
    ensures event.Sign? ==> LinkInv(s, event.linkId)
  {
  }

  lemma NextKeepsLink(s: State, event: Event, emailToUser: map<string, string>, id: string)
    requires Inv(s, emailToUser) && Next(s, event, emailToUser).Some?
    ensures LinkInv(Next(s, event, emailToUser).value, id)
  {
    if !event.Tick? && !event.Restart? {
      Mover(s, event, emailToUser);
    }
    assert LinkInv(s, id);
    hide Inv;
  }

  lemma NextKeepsRequest(s: State, event: Event, emailToUser: map<string, string>, t: nat)
    requires Inv(s, emailToUser) && Next(s, event, emailToUser).Some?
    requires t < |s.requests|
    ensures var after := Next(s, event, emailToUser).value;
            |after.requests| == |s.requests| && RequestInv(after, t, after.requests[t])
  {
    if !event.Tick? && !event.Restart? {
      Mover(s, event, emailToUser);
    }
    assert RequestInv(s, t, s.requests[t]);
    assert event.Present? && event.token in s.tokens ==> TokenInv(s, event.token);
    assert event.Present? && event.token.Session? ==> LinkIdOf(event.token) == "";
    assert event.Present? && event.token.Magic? ==> IdInv(s, event.token.linkId, emailToUser);
    hide Inv;
  }

  lemma NextKeepsSession(s: State, event: Event, emailToUser: map<string, string>, k: nat)
    requires Inv(s, emailToUser) && Next(s, event, emailToUser).Some?
    requires k < |Next(s, event, emailToUser).value.sessions|
    ensures var after := Next(s, event, emailToUser).value; SessionInv(after, k, after.sessions[k])
  {
    if !event.Tick? && !event.Restart? {
      Mover(s, event, emailToUser);
    }
    assert k < |s.sessions| ==> SessionInv(s, k, s.sessions[k]);
    hide Inv;
  }

  lemma SessionsGrow(s: State, event: Event, emailToUser: map<string, string>, email: string, exp: nat)
    requires Next(s, event, emailToUser).Some? && HasSession(s, email, exp)
    ensures HasSession(Next(s, event, emailToUser).value, email, exp)
  {
    var k :| 0 <= k < |s.sessions| && s.sessions[k].email == email
             && exp == Truncate(s.sessions[k].issuedAt + SESSION_LIFETIME);
    assert Next(s, event, emailToUser).value.sessions[k] == s.sessions[k];
  }

  lemma NextKeepsToken(s: State, event: Event, emailToUser: map<string, string>, token: Token)
    requires Inv(s, emailToUser) && Next(s, event, emailToUser).Some?
    requires token in Next(s, event, emailToUser).value.tokens
    ensures TokenInv(Next(s, event, emailToUser).value, token)
  {
    if !event.Tick? && !event.Restart? {
      Mover(s, event, emailToUser);
    }
    assert token in s.tokens ==> TokenInv(s, token);
    hide Inv;
    if token in s.tokens && token.Session? {
      SessionsGrow(s, event, emailToUser, token.email, token.exp);
    } else if token.Session? {
      var after := Next(s, event, emailToUser).value;
      assert after.sessions[|s.sessions|].email == token.email;
    }
  }

  lemma NextKeepsIds(s: State, event: Event, emailToUser: map<string, string>)
    requires Inv(s, emailToUser) && Next(s, event, emailToUser).Some?
    ensures var after := Next(s, event, emailToUser).value;
            "" !in after.ids && forall id :: IdInv(after, id, emailToUser)
  {
    forall id
      ensures IdInv(Next(s, event, emailToUser).value, id, emailToUser)
    {
      assert IdInv(s, id, emailToUser);
    }
  }

  lemma NextKeepsInv(s: State, event: Event, emailToUser: map<string, string>)
    requires Inv(s, emailToUser) && Next(s, event, emailToUser).Some?
    ensures Inv(Next(s, event, emailToUser).value, emailToUser)
  {
    hide Next, LinkInv, RequestInv, SessionInv, TokenInv, IdInv;
    var after := Next(s, event, emailToUser).value;
    NextKeepsIds(s, event, emailToUser);
    forall id {
      NextKeepsLink(s, event, emailToUser, id);
    }
    NextKeepsCount(s, event, emailToUser);
    forall t: nat | t < |after.requests|
      ensures RequestInv(after, t, after.requests[t])
    {
      NextKeepsRequest(s, event, emailToUser, t);
    }
    forall k: nat | k < |after.sessions|
      ensures SessionInv(after, k, after.sessions[k])
    {
      NextKeepsSession(s, event, emailToUser, k);
    }
    forall token | token in after.tokens
      ensures TokenInv(after, token)
    {
      NextKeepsToken(s, event, emailToUser, token);
    }
  }

  lemma NextKeepsCount(s: State, event: Event, emailToUser: map<string, string>)
    requires Next(s, event, emailToUser).Some?
    ensures |Next(s, event, emailToUser).value.requests| == |s.requests|
  {
  }

  lemma {:induction false} RunKeepsInv(s: State, events: seq<Event>, emailToUser: map<string, string>)
    requires Inv(s, emailToUser) && Run(s, events, emailToUser).Some?
    ensures Inv(Run(s, events, emailToUser).value, emailToUser)
    decreases |events|
  {
    hide Next, Inv;
    if events != [] {
      NextKeepsInv(s, events[0], emailToUser);
      RunKeepsInv(Next(s, events[0], emailToUser).value, events[1..], emailToUser);
    }
  }

  // ---- main results ------------------------------------------------------------------------

  /**
   Over every run, restarts included, a link gives at most one session; the session is for the email
   the link was made for, and the link was presented and redeemed within 15 minutes of being made.
   */
  lemma LinksAreSingleUse(requests: nat, events: seq<Event>, emailToUser: map<string, string>)
    requires Run(Start(requests), events, emailToUser).Some?
    ensures var s := Run(Start(requests), events, emailToUser).value;
            && (forall i, j | 0 <= i < j < |s.sessions| :: s.sessions[i].linkId != s.sessions[j].linkId)
            && forall k | 0 <= k < |s.sessions| ::
                 var session := s.sessions[k];
                 session.linkId in s.ids &&
                 var issued := s.ids[session.linkId];
                 && issued.email == session.email && issued.email in emailToUser
                 && issued.signedAt <= session.presentedAt < Truncate(issued.signedAt + 900_000_000_000)
                 && session.presentedAt <= session.redeemedAt <= issued.signedAt + 900_000_000_000
  {
    hide Next, Truncate;
    RunKeepsInv(Start(requests), events, emailToUser);
    var s := Run(Start(requests), events, emailToUser).value;
    assert forall k: nat | k < |s.sessions| ::
           SessionInv(s, k, s.sessions[k]) && IdInv(s, s.sessions[k].linkId, emailToUser);
  }

  /**
   Whoever is let in by a web token is the user of an email for which a link was redeemed, less than 30 days
   after that session began. The token of a link lets nobody in.
   */
  lemma WebUsersRedeemedALink(requests: nat, events: seq<Event>, emailToUser: map<string, string>, token: Token)
    requires Run(Start(requests), events, emailToUser).Some?
    requires var s := Run(Start(requests), events, emailToUser).value;
             token in s.tokens && VerifyToken(token, s.now, emailToUser).Some?
    ensures var s := Run(Start(requests), events, emailToUser).value;
            && token.Session?
            && exists k | 0 <= k < |s.sessions| ::
                 && s.sessions[k].email == token.email && s.sessions[k].email in emailToUser
                 && VerifyToken(token, s.now, emailToUser) == Some(emailToUser[s.sessions[k].email])
                 && s.sessions[k].issuedAt <= s.now < s.sessions[k].issuedAt + 2_592_000_000_000_000
                 && s.sessions[k].linkId in s.ids && s.ids[s.sessions[k].linkId].email == s.sessions[k].email
  {
    hide Next;
    RunKeepsInv(Start(requests), events, emailToUser);
    var s := Run(Start(requests), events, emailToUser).value;
    assert TokenInv(s, token) && HasSession(s, token.email, token.exp);
    var k :| 0 <= k < |s.sessions| && s.sessions[k].email == token.email
             && token.exp == Truncate(s.sessions[k].issuedAt + SESSION_LIFETIME);
    assert SessionInv(s, k, s.sessions[k]) && IdInv(s, s.sessions[k].linkId, emailToUser);
  }

  /** The token of every session was handed out. */
  ghost predicate TokensOut(s: State) {
    forall k | 0 <= k < |s.sessions| ::
      Session(s.sessions[k].email, Truncate(s.sessions[k].issuedAt + SESSION_LIFETIME)) in s.tokens
  }

  lemma {:induction false} RunKeepsTokensOut(s: State, events: seq<Event>, emailToUser: map<string, string>)
    requires TokensOut(s) && Run(s, events, emailToUser).Some?
    ensures TokensOut(Run(s, events, emailToUser).value)
    decreases |events|
  {
    hide Truncate;
    if events != [] {
      RunKeepsTokensOut(Next(s, events[0], emailToUser).value, events[1..], emailToUser);
    }
  }

  /** Every session has its token, which lets in the user of its email until 30 days later, in whole seconds. */
  lemma SessionsLetIn(requests: nat, events: seq<Event>, emailToUser: map<string, string>, k: nat, at: nat)
    requires Run(Start(requests), events, emailToUser).Some?
    requires k < |Run(Start(requests), events, emailToUser).value.sessions|
    ensures var s := Run(Start(requests), events, emailToUser).value;
            var session := s.sessions[k];
            var exp := Truncate(session.issuedAt + 2_592_000_000_000_000);
            && session.email in emailToUser
            && Session(session.email, exp) in s.tokens
            && VerifyToken(Session(session.email, exp), at, emailToUser) ==
               if at < exp then Some(emailToUser[session.email]) else None
  {
    hide Next, Truncate;
    RunKeepsInv(Start(requests), events, emailToUser);
    RunKeepsTokensOut(Start(requests), events, emailToUser);
    var s := Run(Start(requests), events, emailToUser).value;
    assert SessionInv(s, k, s.sessions[k]) && IdInv(s, s.sessions[k].linkId, emailToUser);
  }

  /** A session token is never taken for a link: the request that presents it gets nothing. */
  lemma SessionTokenIsNoLink(s: State, emailToUser: map<string, string>, t: nat, token: Token, entry: EntryPoint)
    requires Inv(s, emailToUser) && IsAt(s, t) && s.requests[t].Free? && token in s.tokens && token.Session?
    requires s.now < token.exp
    ensures Run(s, [Present(t, token, entry), Redeem(t)], emailToUser) == Some(s)
  {
    var presented := Next(s, Present(t, token, entry), emailToUser).value;
    assert LinkInv(s, "");
    assert Next(presented, Redeem(t), emailToUser) == Some(s) by {
      assert At(At(s, t, presented.requests[t]), t, Free).requests == s.requests;
    }
    RunTwo(s, Present(t, token, entry), Redeem(t), emailToUser);
  }

  lemma RunTwo(s: State, a: Event, b: Event, emailToUser: map<string, string>)
    requires Next(s, a, emailToUser).Some?
    ensures Run(s, [a, b], emailToUser) == Next(Next(s, a, emailToUser).value, b, emailToUser)
  {
    hide Next;
    assert [a, b][1..] == [b] && [b][1..] == [];
    var next := Next(s, a, emailToUser).value;
    assert Run(next, [b], emailToUser) ==
           (var last := Next(next, b, emailToUser); if last.Some? then Run(last.value, [], emailToUser) else None);
  }

  /** Every link that was handed out is good for 15 minutes from the moment it was made, in whole seconds. */
  lemma LinksLast(requests: nat, events: seq<Event>, emailToUser: map<string, string>, token: Token)
    requires Run(Start(requests), events, emailToUser).Some?
    requires token in Run(Start(requests), events, emailToUser).value.tokens && token.Magic?
    ensures var s := Run(Start(requests), events, emailToUser).value;
            && token.linkId in s.ids && token.email == s.ids[token.linkId].email
            && token.exp == Truncate(s.ids[token.linkId].signedAt + 900_000_000_000)
            && (token.linkId in s.links ==>
                  s.links[token.linkId].expiresAt == s.ids[token.linkId].signedAt + 900_000_000_000)
  {
    hide Next, Truncate;
    RunKeepsInv(Start(requests), events, emailToUser);
    var s := Run(Start(requests), events, emailToUser).value;
    assert TokenInv(s, token) && IdInv(s, token.linkId, emailToUser) && LinkInv(s, token.linkId);
  }

  /** The store never refuses for expiry what the token check let through at the same instant. */
  lemma TokenExpiresFirst(s: State, emailToUser: map<string, string>, token: Token)
    requires Inv(s, emailToUser) && token in s.tokens && token.Magic? && s.now < token.exp
    ensures Redeemable(s.links, token.linkId, s.now) <==> s.ids[token.linkId].place.Stored?
  {
    assert TokenInv(s, token) && LinkInv(s, token.linkId);
  }

  /** The first to use an unexpired link is let in: it gets the session the link was made for. */
  lemma FirstUseSucceeds(s: State, emailToUser: map<string, string>, t: nat, token: Token, entry: EntryPoint)
    requires Inv(s, emailToUser) && IsAt(s, t) && s.requests[t].Free?
    requires token in s.tokens && token.Magic? && s.now < token.exp && s.ids[token.linkId].place.Stored?
    ensures var redeemed := Run(s, [Present(t, token, entry), Redeem(t)], emailToUser);
            redeemed.Some? &&
            var issued := Next(redeemed.value, Issue(t), emailToUser);
            issued.Some? &&
            issued.value.sessions ==
            s.sessions + [SessionRecord(token.linkId, s.ids[token.linkId].email, entry, s.now, s.now, s.now)]
  {
    TokenExpiresFirst(s, emailToUser, token);
    assert TokenInv(s, token);
    RunTwo(s, Present(t, token, entry), Redeem(t), emailToUser);
    hide Inv, Run;
    var presented := Next(s, Present(t, token, entry), emailToUser).value;
    var redeemed := Next(presented, Redeem(t), emailToUser).value;
    assert redeemed.requests[t] == Holding(token.linkId, token.email, entry, s.now, s.now);
  }
}

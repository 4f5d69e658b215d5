/** Whole runs of the token service: logins, minting, signing, revocation, user
    removal and validations, with every database round trip a step of its own. */
module TokenRuns {
  import opened Text
  import opened Decimal
  import opened Records
  import opened Tokens

  /** The session a token was minted with and the clock reading its expiry was
      counted from. */
  datatype Minting = Minting(minter: Claims, at: int)

  /** A row stored for a token that is not signed yet. */
  datatype Pending = Pending(params: CreateParams, minter: Claims)

  /** A validation after its lookup, and after its outcome. */
  datatype Check =
    | Looked(claims: Claims, required: seq<string>, found: Option<(Uuid, Row)>)
    | Settled(claims: Claims, required: seq<string>, at: int, ok: bool)

  /** `removed`, `drawn` and `rowIDs` say what was ever deleted or drawn;
      `minted` is a history variable no step reads. */
  datatype World = World(
    db: Db, signed: set<Claims>, removed: set<Uuid>, drawn: set<string>, rowIDs: set<Uuid>,
    pending: map<nat, Pending>, checks: map<nat, Check>, minted: map<string, Minting>, clock: int)

  datatype Event =
    | Login(user: Uuid, extSub: string, email: string, role: string, scopes: seq<string>, jti: string, ttl: int, now: int)
    | InsertRow(m: nat, minter: Claims, req: MintRequest, jti: string, newID: Uuid, now1: int, now2: int)
    | SignToken(m: nat, subjectText: string, now: int)
    | Drop(m: nat)
    | RevokeRow(session: Claims, tokenID: Uuid)
    | RemoveUser(user: Uuid)
    | LookUp(v: nat, claims: Claims, scopes: seq<string>, now: int)
    | Settle(v: nat, now: int)

  ghost function ByJTI(db: Db, jti: string): (found: Option<(Uuid, Row)>)
    ensures Finds(db, jti, found)
  {
    if exists id :: id in db.rows && db.rows[id].jti == jti then
      var id :| id in db.rows && db.rows[id].jti == jti;
      Some((id, db.rows[id]))
    else None
  }

  /** One step; an event that does not fit the state changes nothing. New ids
      and identifiers are fresh, the clock does not go back, and the text of a
      user id is not empty. */
  ghost function Next(w: World, e: Event): World {
    match e
    case Login(user, extSub, email, role, scopes, jti, ttl, now) =>
      if user in w.removed || jti in w.drawn || now < w.clock then w
      else
        var issued := IssueSession(user, extSub, email, role, scopes, jti, now, ttl, now);
        w.(db := w.db.(users := w.db.users + {user}), drawn := w.drawn + {jti}, clock := now,
           signed := w.signed + if issued.Signed? then {issued.claims} else {})
    case InsertRow(m, minter, req, jti, newID, now1, now2) =>
      var prepared := Prepare(minter, req, now1, jti);
      if !(m !in w.pending && minter in w.signed && jti !in w.drawn && newID !in w.rowIDs
           && w.clock <= now1 <= now2 && prepared.Ready?) then w
      else
        var p := Stored(prepared.params);
        if CreateCheck(prepared.params, now2) != OK || !Insertable(w.db, p) then w
        else
          w.(db := w.db.(rows := w.db.rows[newID := NewRow(p)]), drawn := w.drawn + {jti}, rowIDs := w.rowIDs + {newID},
             pending := w.pending[m := Pending(prepared.params, minter)],
             minted := w.minted[jti := Minting(minter, now1)], clock := now2)
    case SignToken(m, subjectText, now) =>
      if m !in w.pending || now < w.clock || subjectText == "" then w
      else
        var p, minter := w.pending[m].params, w.pending[m].minter;
        var issued := IssuePAT(p.userID, ExternalSubject(minter, subjectText), minter.email, minter.role, p.scopes, p.jti, p.expiresAt, now);
        w.(pending := w.pending - {m}, clock := now,
           signed := w.signed + if issued.Signed? then {issued.claims} else {})
    case Drop(m) => w.(pending := w.pending - {m})
    case RevokeRow(c, id) =>
      if c in w.signed && c.tokenType != PAT && id in w.db.rows && c.subject == User(w.db.rows[id].userID)
      then w.(db := Revoked(w.db, id)) else w
    case RemoveUser(user) => w.(db := UserDeleted(w.db, user), removed := w.removed + {user})
    case LookUp(v, claims, scopes, now) =>
      if v in w.checks || claims !in w.signed || claims.tokenType != PAT
         || !(w.clock <= now < claims.exp * NANOS) || TrimSpace(claims.jti) == "" then w
      else w.(checks := w.checks[v := Looked(claims, Distinct(scopes), ByJTI(w.db, claims.jti))], clock := now)
    case Settle(v, now) =>
      if !(v in w.checks && w.checks[v].Looked? && w.clock <= now) then w
      else
        var c := w.checks[v];
        var status := RowCheck(c.found, c.claims, now);
        var ok := status == OK && Covers(c.claims.scopes, c.required);
        w.(checks := w.checks[v := Settled(c.claims, c.required, now, ok)], clock := now,
           db := if status == OK then MarkedUsed(w.db, c.found.value.0, now) else w.db)
  }

  const START := World(Db({}, map[]), {}, {}, {}, {}, map[], map[], map[], 0)

  ghost predicate IsRun(ws: seq<World>, es: seq<Event>) {
    && |ws| == |es| + 1 && ws[0] == START
    && forall i | 0 <= i < |es| :: ws[i + 1] == Next(ws[i], es[i])
  }

  // ---- What every step keeps ----

  /** Row and claims of one token. */
  predicate Matches(row: Row, c: Claims) {
    && row.jti == c.jti && c.subject == User(row.userID) && row.scopes == c.scopes && row.tokenType == c.tokenType
    && c.exp == row.expiresAt / 1_000_000
  }

  predicate Pends(row: Row, p: CreateParams) {
    && row.jti == p.jti && row.userID == p.userID && row.scopes == p.scopes && row.tokenType == PAT
    && row.expiresAt == p.expiresAt / 1000
  }

  predicate HasRow(db: Db, jti: string, id: Uuid) {
    id in db.rows && db.rows[id].jti == jti
  }

  /** Minted by a session that holds every scope of the token. */
  ghost predicate MintedWithin(w: World, jti: string, scopes: seq<string>) {
    && jti in w.minted
    && var minter := w.minted[jti].minter;
       minter in w.signed && minter.tokenType != PAT && Covers(minter.scopes, scopes)
  }

  function Latest(w: World, jti: string): int
    requires jti in w.minted
  {
    w.minted[jti].at + MAX_TTL * NANOS
  }

  ghost predicate DbOk(w: World) {
    && w.db.users !! w.removed && w.minted.Keys <= w.drawn
    && (forall id | id in w.db.rows ::
          && id in w.rowIDs && w.db.rows[id].userID in w.db.users
          && w.db.rows[id].jti in w.minted && w.db.rows[id].expiresAt * 1000 <= Latest(w, w.db.rows[id].jti))
    && (forall a, b | a in w.db.rows && b in w.db.rows && w.db.rows[a].jti == w.db.rows[b].jti :: a == b)
  }

  ghost predicate TokenOk(w: World, c: Claims) {
    c.tokenType == PAT ==>
      && MintedWithin(w, c.jti, c.scopes) && c.subject.User?
      && (forall id | HasRow(w.db, c.jti, id) :: Matches(w.db.rows[id], c))
      && (c.subject.id !in w.removed ==> exists id :: HasRow(w.db, c.jti, id))
  }

  ghost predicate PendingOk(w: World, p: Pending) {
    && MintedWithin(w, p.params.jti, p.params.scopes)
    && (forall id | HasRow(w.db, p.params.jti, id) :: Pends(w.db.rows[id], p.params))
    && (p.params.userID !in w.removed ==> exists id :: HasRow(w.db, p.params.jti, id))
  }

  ghost predicate CheckOk(w: World, c: Check) {
    && c.claims in w.signed && c.claims.tokenType == PAT && c.claims.jti in w.minted
    && match c
       case Looked(claims, _, found) =>
         found.Some? ==> found.value.1.jti == claims.jti && found.value.1.expiresAt * 1000 <= Latest(w, claims.jti)
       case Settled(claims, required, at, ok) =>
         ok ==> Covers(claims.scopes, required) && at <= Latest(w, claims.jti)
  }

  ghost predicate Inv(w: World) {
    && DbOk(w)
    && (forall c | c in w.signed :: TokenOk(w, c))
    && (forall m | m in w.pending :: PendingOk(w, w.pending[m]))
    && (forall v | v in w.checks :: CheckOk(w, w.checks[v]))
  }

  /** Growing histories and rows that only change in `revoked` and `lastUsedAt`
      keep what is known of tokens, pending rows and validations. */
  ghost predicate Evolves(w: World, x: World) {
    && w.signed <= x.signed && w.removed <= x.removed
    && (forall jti | jti in w.minted :: jti in x.minted && x.minted[jti] == w.minted[jti])
    && (forall id | id in x.db.rows ::
          if id in w.db.rows then SameToken(w.db.rows[id], x.db.rows[id]) else x.db.rows[id].jti !in w.minted)
    && (forall id | id in w.db.rows && id !in x.db.rows :: w.db.rows[id].userID in x.removed)
  }

  predicate SameToken(a: Row, b: Row) {
    b == a.(revoked := b.revoked, lastUsedAt := b.lastUsedAt)
  }

  lemma EvolvesKeepsToken(w: World, x: World, c: Claims)
    requires Evolves(w, x) && TokenOk(w, c)
    ensures TokenOk(x, c)
  {
    if c.tokenType == PAT && c.subject.id !in x.removed {
      var id :| HasRow(w.db, c.jti, id);
      assert Matches(w.db.rows[id], c);
      assert HasRow(x.db, c.jti, id);
    }
  }

  lemma EvolvesKeepsPending(w: World, x: World, p: Pending)
    requires Evolves(w, x) && PendingOk(w, p)
    ensures PendingOk(x, p)
  {
    if p.params.userID !in x.removed {
      var id :| HasRow(w.db, p.params.jti, id);
      assert Pends(w.db.rows[id], p.params);
      assert HasRow(x.db, p.params.jti, id);
    }
  }

  lemma EvolvesKeepsCheck(w: World, x: World, c: Check)
    requires Evolves(w, x) && CheckOk(w, c)
    ensures CheckOk(x, c)
  {
  }

  lemma EvolvesKeepsInv(w: World, x: World)
    requires Inv(w) && Evolves(w, x) && DbOk(x)
    requires forall c | c in x.signed && c !in w.signed :: TokenOk(x, c)
    requires forall m | m in x.pending && !(m in w.pending && x.pending[m] == w.pending[m]) :: PendingOk(x, x.pending[m])
    requires forall v | v in x.checks && !(v in w.checks && x.checks[v] == w.checks[v]) :: CheckOk(x, x.checks[v])
    ensures Inv(x)
  {
    hide TokenOk, PendingOk, CheckOk, Evolves, DbOk;
    forall c | c in w.signed { EvolvesKeepsToken(w, x, c); }
    forall m | m in w.pending { EvolvesKeepsPending(w, x, w.pending[m]); }
    forall v | v in w.checks { EvolvesKeepsCheck(w, x, w.checks[v]); }
  }

  /** Every step keeps the invariant. */
  lemma NextKeepsInv(w: World, e: Event)
    requires Inv(w)
    ensures Inv(Next(w, e))
  {
    hide Inv, Next;
    match e
    case Login(_, _, _, _, _, _, _, _) => LoginKeeps(w, e);
    case InsertRow(_, _, _, _, _, _, _) => InsertKeeps(w, e);
    case SignToken(_, _, _) => SignKeeps(w, e);
    case Drop(_) => DropKeeps(w, e);
    case RevokeRow(_, _) => RevokeKeeps(w, e);
    case RemoveUser(_) => RemoveKeeps(w, e);
    case LookUp(_, _, _, _) => LookUpKeeps(w, e);
    case Settle(_, _) => SettleKeeps(w, e);
  }

  lemma LoginKeeps(w: World, e: Event)
    requires Inv(w) && e.Login?
    ensures Inv(Next(w, e))
  {
    hide TokenOk, PendingOk, CheckOk;
    var x := Next(w, e);
    forall c | c in x.signed && c !in w.signed ensures TokenOk(x, c) { NotPAT(x, c); }
    EvolvesKeepsInv(w, x);
  }

  lemma NotPAT(w: World, c: Claims)
    requires c.tokenType != PAT
    ensures TokenOk(w, c)
  {
  }

  lemma InsertKeeps(w: World, e: Event)
    requires Inv(w) && e.InsertRow?
    ensures Inv(Next(w, e))
  {
    hide TokenOk, CheckOk, PendingOk, Prepare, Stored, CreateCheck, Insertable, DbOk, Evolves;
    var x := Next(w, e);
    if x != w {
      InsertedOk(w, x, e);
      EvolvesKeepsInv(w, x);
    }
  }

  lemma InsertedOk(w: World, x: World, e: Event)
    requires DbOk(w) && e.InsertRow? && x == Next(w, e) && x != w
    ensures DbOk(x) && Evolves(w, x) && PendingOk(x, x.pending[e.m])
  {
    hide Prepare, Stored, CreateCheck, DbOk, Evolves, PendingOk;
    LifetimeBounded(e.minter, e.req, e.now1, e.jti);
    PreparedWithinMinter(e.minter, e.req, e.now1, e.jti);
    var p := Prepare(e.minter, e.req, e.now1, e.jti).params;
    StoredPAT(p);
    RowAdded(w, x, e.newID, Stored(p), Minting(e.minter, e.now1));
    RowPends(w, x, e.newID, p, e.minter);
  }

  /** A new row for a new identifier fits in the table. */
  lemma RowAdded(w: World, x: World, id: Uuid, p: CreateParams, minting: Minting)
    requires DbOk(w) && id !in w.rowIDs && p.jti !in w.drawn && Insertable(w.db, p)
    requires p.expiresAt <= minting.at + MAX_TTL * NANOS
    requires x.db == w.db.(rows := w.db.rows[id := NewRow(p)]) && x.minted == w.minted[p.jti := minting]
    requires x.drawn == w.drawn + {p.jti} && x.rowIDs == w.rowIDs + {id} && x.removed == w.removed && x.signed == w.signed
    ensures DbOk(x) && Evolves(w, x)
  {
  }

  lemma RowPends(w: World, x: World, id: Uuid, p: CreateParams, minter: Claims)
    requires DbOk(w) && id !in w.rowIDs && p.jti !in w.drawn && p.tokenType == PAT
    requires minter in x.signed && minter.tokenType != PAT && Covers(minter.scopes, p.scopes)
    requires p.jti in x.minted && x.minted[p.jti].minter == minter
    requires x.db.rows == w.db.rows[id := NewRow(Stored(p))]
    ensures PendingOk(x, Pending(p, minter))
  {
    hide TrimSpace;
    StoredPAT(p);
    assert HasRow(x.db, p.jti, id);
  }

  lemma StoredPAT(p: CreateParams)
    requires p.tokenType == PAT
    ensures Stored(p) == p.(name := TrimSpace(p.name))
  {
  }

  lemma SignKeeps(w: World, e: Event)
    requires Inv(w) && e.SignToken?
    ensures Inv(Next(w, e))
  {
    hide CheckOk;
    var x := Next(w, e);
    if x != w {
      var p := w.pending[e.m];
      assert PendingOk(w, p);
      forall c | c in x.signed && c !in w.signed ensures TokenOk(x, c) {
        SignedOk(w, x, p, c, e);
      }
      EvolvesKeepsInv(w, x);
    }
  }

  lemma SignedOk(w: World, x: World, p: Pending, c: Claims, e: Event)
    requires PendingOk(w, p) && w.signed <= x.signed && x.db == w.db && x.minted == w.minted && x.removed == w.removed
    requires e.SignToken?
    requires IssuePAT(p.params.userID, ExternalSubject(p.minter, e.subjectText), p.minter.email, p.minter.role,
                      p.params.scopes, p.params.jti, p.params.expiresAt, e.now) == Signed(c)
    ensures TokenOk(x, c)
  {
    hide TrimSpace;
    ExpiryAgrees(p.params.expiresAt);
  }

  lemma DropKeeps(w: World, e: Event)
    requires Inv(w) && e.Drop?
    ensures Inv(Next(w, e))
  {
    hide TokenOk, PendingOk, CheckOk;
    EvolvesKeepsInv(w, Next(w, e));
  }

  lemma RevokeKeeps(w: World, e: Event)
    requires Inv(w) && e.RevokeRow?
    ensures Inv(Next(w, e))
  {
    hide TokenOk, PendingOk, CheckOk;
    EvolvesKeepsInv(w, Next(w, e));
  }

  lemma RemoveKeeps(w: World, e: Event)
    requires Inv(w) && e.RemoveUser?
    ensures Inv(Next(w, e))
  {
    hide TokenOk, PendingOk, CheckOk;
    EvolvesKeepsInv(w, Next(w, e));
  }

  lemma LookUpKeeps(w: World, e: Event)
    requires Inv(w) && e.LookUp?
    ensures Inv(Next(w, e))
  {
    hide PendingOk, TrimSpace, Distinct;
    var x := Next(w, e);
    if x != w {
      assert TokenOk(w, e.claims);
      EvolvesKeepsInv(w, x);
    }
  }

  lemma SettleKeeps(w: World, e: Event)
    requires Inv(w) && e.Settle?
    ensures Inv(Next(w, e))
  {
    hide PendingOk, TokenOk, CheckOk, DbOk, Evolves, Covers, MarkedUsed;
    var x := Next(w, e);
    if x != w {
      assert CheckOk(w, w.checks[e.v]);
      var c := w.checks[e.v];
      if RowCheck(c.found, c.claims, e.now) == OK { UsedOk(w, x, c.found.value.0, e.now); } else { SameDb(w, x); }
      SettledOk(w, x, c, e.now);
      EvolvesKeepsInv(w, x);
    }
  }

  lemma UsedOk(w: World, x: World, id: Uuid, at: int)
    requires DbOk(w) && x == w.(db := MarkedUsed(w.db, id, at), checks := x.checks, clock := x.clock)
    ensures DbOk(x) && Evolves(w, x)
  {
  }

  lemma SameDb(w: World, x: World)
    requires DbOk(w) && x == w.(checks := x.checks, clock := x.clock)
    ensures DbOk(x) && Evolves(w, x)
  {
  }

  /** An accepted validation was in time, and its token covers what it needs. */
  lemma SettledOk(w: World, x: World, c: Check, now: int)
    requires CheckOk(w, c) && c.Looked? && x.signed == w.signed && x.minted == w.minted
    ensures var ok := RowCheck(c.found, c.claims, now) == OK && Covers(c.claims.scopes, c.required);
            CheckOk(x, Settled(c.claims, c.required, now, ok))
  {
    hide Covers;
  }

  lemma {:induction false} RunKeepsInv(ws: seq<World>, es: seq<Event>, n: nat)
    requires IsRun(ws, es) && n < |ws|
    ensures Inv(ws[n])
  {
    hide Next;
    if n > 0 {
      RunKeepsInv(ws, es, n - 1);
      NextKeepsInv(ws[n - 1], es[n - 1]);
    }
  }

  // ---- Rows that wait for their token ----

  predicate Formed(c: Claims) {
    c.subject.User? && c.subject.id != NIL && c.email != "" && c.role != ""
  }

  /** A personal access token speaks for the session it was minted with. */
  ghost predicate SpeaksForMinter(w: World, c: Claims) {
    c.tokenType == PAT ==>
      && c.jti in w.minted
      && var minter := w.minted[c.jti].minter;
         && c.subject == minter.subject && c.email == minter.email && c.role == minter.role
         && (TrimSpace(minter.extSub) != "" ==> c.extSub == minter.extSub)
  }

  /** A row stored for a formed session, an hour or more before its expiry. */
  ghost predicate Signable(w: World, p: Pending) {
    && p.minter in w.signed && p.minter.subject == User(p.params.userID) && p.params.userID != NIL && p.params.scopes != [] && p.params.jti != ""
    && p.params.jti in w.minted && w.minted[p.params.jti].minter == p.minter
    && 0 <= w.minted[p.params.jti].at <= p.params.expiresAt - MIN_TTL * NANOS
  }

  ghost predicate AllFormed(w: World) {
    && w.clock >= 0 && w.minted.Keys <= w.drawn
    && (forall c | c in w.signed ::
          Formed(c) && SpeaksForMinter(w, c) && (c.subject.id in w.db.users || c.subject.id in w.removed))
    && (forall m | m in w.pending :: Signable(w, w.pending[m]))
  }

  lemma NextKeepsFormed(w: World, e: Event)
    requires AllFormed(w)
    ensures AllFormed(Next(w, e))
  {
    hide AllFormed, Next;
    match e
    case Login(_, _, _, _, _, _, _, _) => LoginFormed(w, e);
    case InsertRow(_, _, _, _, _, _, _) => InsertFormed(w, e);
    case SignToken(_, _, _) => SignFormed(w, e);
    case _ => RestFormed(w, e);
  }

  lemma LoginFormed(w: World, e: Event)
    requires AllFormed(w) && e.Login?
    ensures AllFormed(Next(w, e))
  {
    hide TrimSpace;
  }

  lemma InsertFormed(w: World, e: Event)
    requires AllFormed(w) && e.InsertRow?
    ensures AllFormed(Next(w, e))
  {
    hide TrimSpace, Distinct, Prepare, Stored, Covers, Insertable;
    if Prepare(e.minter, e.req, e.now1, e.jti).Ready? {
      LifetimeBounded(e.minter, e.req, e.now1, e.jti);
      PreparedWithinMinter(e.minter, e.req, e.now1, e.jti);
    }
  }

  lemma SignFormed(w: World, e: Event)
    requires AllFormed(w) && e.SignToken?
    ensures AllFormed(Next(w, e))
  {
    hide TrimSpace;
  }

  lemma RestFormed(w: World, e: Event)
    requires AllFormed(w) && !e.Login? && !e.InsertRow? && !e.SignToken?
    ensures AllFormed(Next(w, e))
  {
    hide TrimSpace, Distinct, RowCheck, ByJTI, Covers, Prepare, IssuePAT, IssueSession;
  }

  lemma {:induction false} RunKeepsFormed(ws: seq<World>, es: seq<Event>, n: nat)
    requires IsRun(ws, es) && n < |ws|
    ensures AllFormed(ws[n])
  {
    hide Next, AllFormed;
    if n == 0 {
      assert AllFormed(START) by { StartIsFormed(); }
    } else {
      RunKeepsFormed(ws, es, n - 1);
      NextKeepsFormed(ws[n - 1], es[n - 1]);
    }
  }

  lemma StartIsFormed()
    ensures AllFormed(START)
  {
  }

  // ---- Theorems ----

  /** In every run, signing the token of a stored row is refused exactly when the
      clock has passed the row's expiry, which is an hour or more after the
      minting. */
  lemma SigningRefusedOnlyLate(ws: seq<World>, es: seq<Event>, n: nat, m: nat, subjectText: string, now: int)
    requires IsRun(ws, es) && n < |ws| && m in ws[n].pending && subjectText != ""
    ensures var p, minter := ws[n].pending[m].params, ws[n].pending[m].minter;
            && (IssuePAT(p.userID, ExternalSubject(minter, subjectText), minter.email, minter.role, p.scopes, p.jti, p.expiresAt, now).Signed?
                <==> now <= p.expiresAt)
            && p.jti in ws[n].minted && p.expiresAt >= ws[n].minted[p.jti].at + MIN_TTL * NANOS
  {
    hide IsRun;
    RunKeepsFormed(ws, es, n);
    var p := ws[n].pending[m];
    assert Signable(ws[n], p) && Formed(p.minter);
    BlankIsEmpty(p.minter.extSub);
    hide TrimSpace;
  }

  /** In every run, a signed personal access token whose user is not removed has
      exactly one row, and row and claims agree on identifier, user, scopes,
      type and, to the second, expiry; once the user is removed it has none. */
  lemma OneRowPerToken(ws: seq<World>, es: seq<Event>, n: nat, c: Claims)
    requires IsRun(ws, es) && n < |ws| && c in ws[n].signed && c.tokenType == PAT
    ensures c.subject.User?
    ensures c.subject.id !in ws[n].removed ==>
              exists id | id in ws[n].db.rows && ws[n].db.rows[id].jti == c.jti ::
                && (forall other | other in ws[n].db.rows && ws[n].db.rows[other].jti == c.jti :: other == id)
                && var row := ws[n].db.rows[id];
                   && c.subject == User(row.userID) && row.scopes == c.scopes && row.tokenType == c.tokenType
                   && c.exp == row.expiresAt / 1_000_000
    ensures c.subject.id in ws[n].removed ==> forall id :: !HasRow(ws[n].db, c.jti, id)
  {
    hide IsRun;
    RunKeepsInv(ws, es, n);
    assert TokenOk(ws[n], c);
    assert forall id | HasRow(ws[n].db, c.jti, id) :: Matches(ws[n].db.rows[id], c);
    if c.subject.id !in ws[n].removed {
      var id :| HasRow(ws[n].db, c.jti, id);
    }
  }

  /** In every run, a request accepted on a personal access token needs only
      scopes that the token carries and that the session it was minted with
      carries too; that session's token was not itself a personal access token;
      and the acceptance is no later than ninety days after the minting. */
  lemma AcceptedWithinMinter(ws: seq<World>, es: seq<Event>, n: nat, v: nat)
    requires IsRun(ws, es) && n < |ws| && v in ws[n].checks
    requires ws[n].checks[v].Settled? && ws[n].checks[v].ok
    ensures var c := ws[n].checks[v];
            && c.claims in ws[n].signed && c.claims.jti in ws[n].minted
            && var m := ws[n].minted[c.claims.jti];
               && (forall s | s in c.required :: s in c.claims.scopes && s in m.minter.scopes)
               && m.minter in ws[n].signed && m.minter.tokenType != PAT
               && c.at <= m.at + 90 * 24 * 3600 * NANOS
  {
    hide IsRun;
    RunKeepsInv(ws, es, n);
    assert CheckOk(ws[n], ws[n].checks[v]);
    assert TokenOk(ws[n], ws[n].checks[v].claims);
  }

  /** Once revoked, a row stays revoked for as long as it exists. */
  lemma {:induction false} RevokedStays(ws: seq<World>, es: seq<Event>, i: nat, j: nat, id: Uuid)
    requires IsRun(ws, es) && i <= j < |ws|
    requires id in ws[i].db.rows && ws[i].db.rows[id].revoked
    ensures id in ws[j].db.rows ==> ws[j].db.rows[id].revoked && ws[j].db.rows[id].jti == ws[i].db.rows[id].jti
    ensures id in ws[j].rowIDs
    decreases j
  {
    RunKeepsInv(ws, es, i);
    if j > i {
      RevokedStays(ws, es, i, j - 1, id);
      RowStep(ws[j - 1], es[j - 1], id);
      assert ws[j] == Next(ws[j - 1], es[j - 1]);
    }
  }

  /** No step un-revokes a row, changes its identifier, or uses its id again. */
  lemma RowStep(w: World, e: Event, id: Uuid)
    requires id in w.rowIDs
    ensures id in Next(w, e).rowIDs
    ensures id in Next(w, e).db.rows ==>
              && id in w.db.rows && Next(w, e).db.rows[id].jti == w.db.rows[id].jti
              && (w.db.rows[id].revoked ==> Next(w, e).db.rows[id].revoked)
  {
    hide TrimSpace, Distinct, Prepare, IssuePAT, IssueSession, ByJTI, RowCheck;
  }

  /** Identifier `jti` was drawn, and every row it has is revoked. */
  ghost predicate Dead(w: World, jti: string) {
    jti in w.drawn && forall id | HasRow(w.db, jti, id) :: w.db.rows[id].revoked
  }

  lemma DeadStep(w: World, e: Event, jti: string)
    requires Dead(w, jti)
    ensures Dead(Next(w, e), jti)
  {
    hide TrimSpace, Distinct, IssuePAT, IssueSession, ByJTI, RowCheck;
  }

  lemma {:induction false} DeadThrough(ws: seq<World>, es: seq<Event>, i: nat, j: nat, jti: string)
    requires IsRun(ws, es) && i <= j < |ws| && Dead(ws[i], jti)
    ensures Dead(ws[j], jti)
    decreases j
  {
    hide Next, Dead;
    if j > i {
      DeadThrough(ws, es, i, j - 1, jti);
      DeadStep(ws[j - 1], es[j - 1], jti);
    }
  }

  /** Validation `v` found nothing usable and has not been accepted. */
  ghost predicate Doomed(w: World, v: nat) {
    && v in w.checks
    && match w.checks[v]
       case Looked(_, _, found) => found.None? || found.value.1.revoked
       case Settled(_, _, _, ok) => !ok
  }

  lemma DoomedStep(w: World, e: Event, v: nat)
    requires Doomed(w, v)
    ensures Doomed(Next(w, e), v)
  {
    hide TrimSpace, Distinct, IssuePAT, IssueSession, ByJTI, Prepare;
  }

  lemma {:induction false} DoomedThrough(ws: seq<World>, es: seq<Event>, i: nat, j: nat, v: nat)
    requires IsRun(ws, es) && i <= j < |ws| && Doomed(ws[i], v)
    ensures Doomed(ws[j], v)
    decreases j
  {
    hide Next, Doomed;
    if j > i {
      DoomedThrough(ws, es, i, j - 1, v);
      DoomedStep(ws[j - 1], es[j - 1], v);
    }
  }

  /** A validation whose lookup follows the revocation of its token is never
      accepted, however the steps interleave. */
  lemma RevokedNeverAccepted(ws: seq<World>, es: seq<Event>, i: nat, k: nat, n: nat, id: Uuid, v: nat)
    requires IsRun(ws, es) && i <= k < n < |ws|
    requires id in ws[i].db.rows && ws[i].db.rows[id].revoked
    requires es[k].LookUp? && es[k].v == v && es[k].claims.jti == ws[i].db.rows[id].jti
    requires v !in ws[k].checks && v in ws[k + 1].checks
    ensures v in ws[n].checks && (ws[n].checks[v].Settled? ==> !ws[n].checks[v].ok)
  {
    hide TrimSpace, Distinct, Prepare, IssuePAT, IssueSession, TokenOk, PendingOk, CheckOk;
    var jti := ws[i].db.rows[id].jti;
    RunKeepsInv(ws, es, i);
    assert Dead(ws[i], jti);
    DeadThrough(ws, es, i, k, jti);
    assert ws[k + 1] == Next(ws[k], es[k]);
    assert Finds(ws[k].db, jti, ByJTI(ws[k].db, jti));
    DoomedThrough(ws, es, k + 1, n, v);
  }

  // ---- Exactly which tokens are minted and accepted ----

  /** In every run, a token carries user, e-mail, role and, unless that is blank,
      external subject of the session it was minted with. */
  lemma TokenSpeaksForMinter(ws: seq<World>, es: seq<Event>, n: nat, c: Claims)
    requires IsRun(ws, es) && n < |ws| && c in ws[n].signed && c.tokenType == PAT
    ensures c.jti in ws[n].minted
    ensures var minter := ws[n].minted[c.jti].minter;
            && c.subject == minter.subject && c.email == minter.email && c.role == minter.role
            && (TrimSpace(minter.extSub) != "" ==> c.extSub == minter.extSub)
  {
    hide IsRun, TrimSpace;
    RunKeepsFormed(ws, es, n);
    assert SpeaksForMinter(ws[n], c);
  }

  /** A login signs exactly one session token, with the user's own data and for
      the lifetime given, and none when a field is missing or that lifetime is
      negative. */
  lemma LoginSigns(ws: seq<World>, es: seq<Event>, k: nat)
    requires IsRun(ws, es) && k < |es| && es[k].Login?
    requires es[k].user !in ws[k].removed && es[k].jti !in ws[k].drawn && ws[k].clock <= es[k].now
    ensures var e := es[k];
            if e.user != NIL && e.extSub != "" && e.email != "" && e.role != "" && e.scopes != [] && e.jti != "" && e.ttl >= 0
            then exists c :: ws[k + 1].signed == ws[k].signed + {c}
                             && Says(c, e.user, e.extSub, e.email, e.role, e.scopes, "session", e.jti, e.now + e.ttl, e.now)
            else ws[k + 1].signed == ws[k].signed
  {
    hide IssueSession, Says, START;
    var e := es[k];
    SessionIssued(e.user, e.extSub, e.email, e.role, e.scopes, e.jti, e.now, e.ttl, e.now);
    assert ws[k + 1] == Next(ws[k], e);
    var issued := IssueSession(e.user, e.extSub, e.email, e.role, e.scopes, e.jti, e.now, e.ttl, e.now);
    if issued.Signed? { assert ws[k + 1].signed == ws[k].signed + {issued.claims}; }
  }

  /** An insertion whose identifiers are new, at readings that do not go back. */
  ghost predicate FreshInsert(w: World, e: Event) {
    && e.InsertRow? && e.minter in w.signed && e.m !in w.pending
    && e.jti !in w.drawn && e.jti != "" && e.newID !in w.rowIDs && w.clock <= e.now1 <= e.now2
  }

  /** In every run, a signed session's request stores a row if and only if the
      session is not itself a personal access token, the token is named, some
      scope is asked for and none the session does not hold, the lifetime is left
      open or is an hour to ninety days, the user is not removed, and that
      lifetime is not over by the time of the insertion. */
  lemma MintedExactly(ws: seq<World>, es: seq<Event>, k: nat)
    requires IsRun(ws, es) && k < |es| && FreshInsert(ws[k], es[k])
    ensures var e := es[k];
            var expiry := e.now1 + (if e.req.expiresIn == 0 then 2_592_000 else e.req.expiresIn) * 1_000_000_000;
            && (e.newID in ws[k + 1].db.rows <==>
                  && e.minter.tokenType != "pat" && TrimSpace(e.req.name) != ""
                  && (exists s | s in e.req.scopes :: TrimSpace(s) != "")
                  && (forall s | s in e.req.scopes && TrimSpace(s) != "" :: TrimSpace(s) in e.minter.scopes)
                  && (e.req.expiresIn == 0 || 3600 <= e.req.expiresIn <= 7_776_000)
                  && e.minter.subject.User? && e.minter.subject.id !in ws[k].removed
                  && e.now2 <= expiry)
            && (e.newID in ws[k + 1].db.rows ==>
                  ws[k + 1].db.rows[e.newID] ==
                  Row(e.minter.subject.id, TrimSpace(e.req.name), Distinct(e.req.scopes), "pat", e.jti, expiry / 1000, false, None))
  {
    hide TrimSpace, Distinct, Prepare, Stored, CreateCheck, Insertable, DbOk, START, IssuePAT, IssueSession, RowCheck, ByJTI;
    var w, e := ws[k], es[k];
    RunKeepsInv(ws, es, k);
    RunKeepsFormed(ws, es, k);
    assert ws[k + 1] == Next(w, e);
    assert Formed(e.minter);
    NotStoredYet(w, e.newID);
    MintingAccepted(e.minter, e.req, e.now1, e.jti);
    if Prepare(e.minter, e.req, e.now1, e.jti).Ready? {
      PreparedWithinMinter(e.minter, e.req, e.now1, e.jti);
      MintFits(w, e.minter, Prepare(e.minter, e.req, e.now1, e.jti).params, e.now2);
    }
  }

  lemma NotStoredYet(w: World, id: Uuid)
    requires DbOk(w) && id !in w.rowIDs
    ensures id !in w.db.rows
  {
  }

  lemma MintFits(w: World, minter: Claims, p: CreateParams, now: int)
    requires DbOk(w) && p.jti !in w.drawn && p.jti != "" && p.name != "" && TrimSpace(p.name) == p.name && p.scopes != []
    requires p.tokenType == PAT && p.userID != NIL && minter.subject == User(p.userID)
    requires p.userID in w.db.users || p.userID in w.removed
    ensures CreateCheck(p, now) == OK && Insertable(w.db, Stored(p)) <==> p.userID !in w.removed && now <= p.expiresAt
    ensures NewRow(Stored(p)) == Row(p.userID, p.name, p.scopes, "pat", p.jti, p.expiresAt / 1000, false, None)
  {
    StoredPAT(p);
    hide TrimSpace;
  }

  /** At step `k` validation `v` looks its token up. */
  ghost predicate LooksUp(ws: seq<World>, es: seq<Event>, k: nat, v: nat)
    requires k < |es| == |ws| - 1
  {
    es[k].LookUp? && es[k].v == v && v !in ws[k].checks && v in ws[k + 1].checks
  }

  /** A validation looks its token up exactly when the token is one that was
      signed as a personal access token, has an identifier, and its expiry second
      has not begun. */
  lemma LooksUpExactly(ws: seq<World>, es: seq<Event>, k: nat, v: nat)
    requires IsRun(ws, es) && k < |es| && es[k].LookUp? && es[k].v == v && v !in ws[k].checks
    requires ws[k].clock <= es[k].now
    ensures LooksUp(ws, es, k, v) <==>
            && es[k].claims in ws[k].signed && es[k].claims.tokenType == "pat"
            && es[k].now < es[k].claims.exp * 1_000_000_000 && TrimSpace(es[k].claims.jti) != ""
  {
    hide TrimSpace, Distinct;
    assert ws[k + 1] == Next(ws[k], es[k]);
  }

  /** At step `n` validation `v` comes to its outcome. */
  ghost predicate Settles(ws: seq<World>, es: seq<Event>, n: nat, v: nat)
    requires n < |es| == |ws| - 1
  {
    && es[n].Settle? && es[n].v == v
    && v in ws[n].checks && ws[n].checks[v].Looked? && v in ws[n + 1].checks && ws[n + 1].checks[v].Settled?
  }

  lemma CheckStep(w: World, e: Event, v: nat)
    requires v in w.checks
    ensures v in Next(w, e).checks
    ensures Next(w, e).checks[v] == w.checks[v] || Next(w, e).checks[v].Settled?
  {
    hide TrimSpace, Distinct, IssuePAT, IssueSession, ByJTI, Prepare, RowCheck, Covers;
  }

  lemma {:induction false} LookedStays(ws: seq<World>, es: seq<Event>, k: nat, n: nat, v: nat)
    requires IsRun(ws, es) && k <= n < |ws| && v in ws[k].checks
    ensures v in ws[n].checks && (ws[n].checks[v] == ws[k].checks[v] || ws[n].checks[v].Settled?)
    decreases n
  {
    hide Next;
    if n > k {
      LookedStays(ws, es, k, n - 1, v);
      CheckStep(ws[n - 1], es[n - 1], v);
    }
  }

  /** In every run, a validation of a signed token is accepted if and only if, when
      it looked the token up, the user was not removed and the token's row was
      there and not revoked, when it settles, the row's expiry is not past, and
      the token holds every scope required. */
  lemma AcceptedExactly(ws: seq<World>, es: seq<Event>, k: nat, n: nat, v: nat)
    requires IsRun(ws, es) && k < n < |es| && LooksUp(ws, es, k, v) && Settles(ws, es, n, v)
    ensures es[k].claims in ws[k].signed && es[k].claims.tokenType == PAT
    ensures ws[n + 1].checks[v].ok <==>
            var c, rows := es[k].claims, ws[k].db.rows;
            && c.subject.User? && c.subject.id !in ws[k].removed
            && (exists id | id in rows && rows[id].jti == c.jti :: !rows[id].revoked && es[n].now <= rows[id].expiresAt * 1000)
            && (forall s | s in es[k].scopes && TrimSpace(s) != "" :: TrimSpace(s) in c.scopes)
  {
    hide TrimSpace, Distinct, START, TokenOk, DbOk, ByJTI, RowCheck, Covers, IssuePAT, IssueSession, Prepare;
    RunKeepsInv(ws, es, k);
    assert ws[k + 1] == Next(ws[k], es[k]) && ws[n + 1] == Next(ws[n], es[n]);
    LookedStays(ws, es, k + 1, n, v);
    var c, found := es[k].claims, ByJTI(ws[k].db, es[k].claims.jti);
    assert ws[n].checks[v] == Looked(c, Distinct(es[k].scopes), found);
    FoundDecides(ws[k], c, found, es[n].now);
    DistinctCovers(es[k].scopes, c.scopes);
  }

  /** What the row checks say of the row of a signed token. */
  lemma FoundDecides(w: World, c: Claims, found: Option<(Uuid, Row)>, at: int)
    requires DbOk(w) && TokenOk(w, c) && c.tokenType == PAT && Finds(w.db, c.jti, found)
    ensures RowCheck(found, c, at) == OK <==>
            && c.subject.User? && c.subject.id !in w.removed
            && exists id | id in w.db.rows && w.db.rows[id].jti == c.jti ::
                 !w.db.rows[id].revoked && at <= w.db.rows[id].expiresAt * 1000
  {
    if found.Some? {
      var (id, row) := found.value;
      assert HasRow(w.db, c.jti, id) && Matches(row, c);
    }
  }

  /** Once the owner's session has revoked a row, no validation that looks its
      token up afterwards is ever accepted. */
  lemma RevocationHolds(ws: seq<World>, es: seq<Event>, i: nat, k: nat, n: nat, v: nat)
    requires IsRun(ws, es) && i < k < n < |ws|
    requires es[i].RevokeRow? && es[i].session in ws[i].signed && es[i].session.tokenType != PAT
    requires es[i].tokenID in ws[i].db.rows && es[i].session.subject == User(ws[i].db.rows[es[i].tokenID].userID)
    requires LooksUp(ws, es, k, v) && es[k].claims.jti == ws[i].db.rows[es[i].tokenID].jti
    ensures v in ws[n].checks && (ws[n].checks[v].Settled? ==> !ws[n].checks[v].ok)
  {
    hide START, TokenOk, DbOk, ByJTI, TrimSpace, Distinct, IssuePAT, IssueSession, Prepare;
    RowRevoked(ws, es, i);
    RevokedNeverAccepted(ws, es, i + 1, k, n, es[i].tokenID, v);
  }

  /** No row is revoked but by a signed session of its owner, for that very row. */
  lemma RevokedOnlyByOwner(ws: seq<World>, es: seq<Event>, k: nat, id: Uuid)
    requires IsRun(ws, es) && k < |es|
    requires id in ws[k].db.rows && !ws[k].db.rows[id].revoked && id in ws[k + 1].db.rows && ws[k + 1].db.rows[id].revoked
    ensures es[k].RevokeRow? && es[k].tokenID == id && es[k].session in ws[k].signed
    ensures es[k].session.tokenType != "pat" && es[k].session.subject == User(ws[k].db.rows[id].userID)
  {
    hide TrimSpace, Distinct, Prepare, IssuePAT, IssueSession, ByJTI, RowCheck, Stored, CreateCheck, Insertable, DbOk, TokenOk;
    RunKeepsInv(ws, es, k);
    RowNumbers(ws[k], id);
    assert ws[k + 1] == Next(ws[k], es[k]);
  }

  lemma RowNumbers(w: World, id: Uuid)
    requires DbOk(w) && id in w.db.rows
    ensures id in w.rowIDs
  {
  }

  /** Revoking a row marks that row and changes nothing else. */
  lemma RowRevoked(ws: seq<World>, es: seq<Event>, i: nat)
    requires IsRun(ws, es) && i < |es|
    requires es[i].RevokeRow? && es[i].session in ws[i].signed && es[i].session.tokenType != PAT
    requires es[i].tokenID in ws[i].db.rows && es[i].session.subject == User(ws[i].db.rows[es[i].tokenID].userID)
    ensures var id, before, after := es[i].tokenID, ws[i].db.rows, ws[i + 1].db.rows;
            && after.Keys == before.Keys && ws[i + 1].db.users == ws[i].db.users
            && after[id].revoked && after[id] == before[id].(revoked := true)
            && forall other | other in before && other != id :: after[other] == before[other]
  {
    assert ws[i + 1] == Next(ws[i], es[i]);
  }
}

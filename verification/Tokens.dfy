/** Personal access tokens: minting, signing, revoking and validating. Times are
    nanoseconds since the Unix epoch; signing is abstract, so a signed token is
    its claims. */
module Tokens {
  import opened Text
  import opened Decimal
  import opened Records

  const SESSION := "session"
  const PAT := "pat"

  const MIN_TTL: int := 3600
  const DEFAULT_TTL: int := 30 * 24 * 3600
  const MAX_TTL: int := 90 * 24 * 3600

  type Uuid = nat
  const NIL: Uuid := 0

  /** A token's subject either is the text of a user id or is not. */
  datatype Subject = User(id: Uuid) | Unreadable(text: string)

  /** Issuer and audience are the same for every token and are not kept. */
  datatype Claims = Claims(
    subject: Subject, extSub: string, email: string, role: string,
    scopes: seq<string>, tokenType: string, jti: string, iat: int, exp: int)

  // ---- Claim construction ----

  datatype Payload = Payload(
    userID: Uuid, extSub: string, email: string, role: string,
    scopes: seq<string>, tokenType: string, jti: string, expiresAt: int)

  datatype IssueResult =
    | Signed(claims: Claims)
    | ZeroExpiry | EmptyUser | EmptyExternalSubject | EmptyEmail | EmptyRole | EmptyScopes | EmptyType | EmptyJTI | ExpiresInPast

  function IssueClaims(p: Payload, now: int): IssueResult {
    if p.userID == NIL then EmptyUser
    else if p.extSub == "" then EmptyExternalSubject
    else if p.email == "" then EmptyEmail
    else if p.role == "" then EmptyRole
    else if p.scopes == [] then EmptyScopes
    else if p.tokenType == "" then EmptyType
    else if p.jti == "" then EmptyJTI
    else if p.expiresAt < now then ExpiresInPast
    else Signed(Claims(User(p.userID), p.extSub, p.email, p.role, p.scopes, p.tokenType, p.jti, now / NANOS, p.expiresAt / NANOS))
  }

  function IssueSession(userID: Uuid, extSub: string, email: string, role: string, scopes: seq<string>,
                        jti: string, readAt: int, ttl: int, now: int): IssueResult {
    IssueClaims(Payload(userID, extSub, email, role, scopes, SESSION, jti, readAt + ttl), now)
  }

  function IssuePAT(userID: Uuid, extSub: string, email: string, role: string, scopes: seq<string>,
                    jti: string, expiresAt: int, now: int): IssueResult {
    if expiresAt == ZERO_TIME then ZeroExpiry
    else IssueClaims(Payload(userID, extSub, email, role, scopes, PAT, jti, expiresAt), now)
  }

  /** A personal access token is signed exactly when nothing is missing and its
      expiry is not past, and says what it was asked to say; each refusal has its
      reason. */
  lemma PATIssued(userID: Uuid, extSub: string, email: string, role: string, scopes: seq<string>,
                  jti: string, expiresAt: int, now: int)
    ensures var issued := IssuePAT(userID, extSub, email, role, scopes, jti, expiresAt, now);
            && (issued.Signed? <==>
                  && expiresAt != ZERO_TIME && userID != NIL && extSub != "" && email != "" && role != ""
                  && scopes != [] && jti != "" && now <= expiresAt)
            && (expiresAt == ZERO_TIME ==> issued == ZeroExpiry)
            && (issued == ZeroExpiry ==> expiresAt == ZERO_TIME)
            && Explains(issued, userID, extSub, email, role, scopes, jti, expiresAt, now)
            && (issued.Signed? ==> Says(issued.claims, userID, extSub, email, role, scopes, "pat", jti, expiresAt, now))
  {
  }

  /** A session token runs for `ttl` from the first reading. */
  lemma SessionIssued(userID: Uuid, extSub: string, email: string, role: string, scopes: seq<string>,
                      jti: string, readAt: int, ttl: int, now: int)
    ensures var issued := IssueSession(userID, extSub, email, role, scopes, jti, readAt, ttl, now);
            && (issued.Signed? <==>
                  && userID != NIL && extSub != "" && email != "" && role != ""
                  && scopes != [] && jti != "" && now <= readAt + ttl)
            && issued != ZeroExpiry
            && Explains(issued, userID, extSub, email, role, scopes, jti, readAt + ttl, now)
            && (issued.Signed? ==> Says(issued.claims, userID, extSub, email, role, scopes, "session", jti, readAt + ttl, now))
  {
  }

  /** Which field a refusal to sign is about. */
  ghost predicate Explains(issued: IssueResult, userID: Uuid, extSub: string, email: string, role: string,
                           scopes: seq<string>, jti: string, expiresAt: int, now: int) {
    match issued
    case EmptyUser => userID == NIL
    case EmptyExternalSubject => extSub == ""
    case EmptyEmail => email == ""
    case EmptyRole => role == ""
    case EmptyScopes => scopes == []
    case EmptyType => false
    case EmptyJTI => jti == ""
    case ExpiresInPast => expiresAt < now
    case _ => true
  }

  /** The claims name this user, and their times are these in whole seconds. */
  ghost predicate Says(c: Claims, userID: Uuid, extSub: string, email: string, role: string, scopes: seq<string>,
                       tokenType: string, jti: string, expiresAt: int, now: int) {
    && c.subject == User(userID) && c.extSub == extSub && c.email == email && c.role == role
    && c.scopes == scopes && c.tokenType == tokenType && c.jti == jti
    && c.iat * 1_000_000_000 <= now < (c.iat + 1) * 1_000_000_000
    && c.exp * 1_000_000_000 <= expiresAt < (c.exp + 1) * 1_000_000_000
  }

  // ---- Scopes ----

  /** The requested scopes that are not allowed, in order. */
  function Missing(requested: seq<string>, allowed: seq<string>): seq<string> {
    if requested == [] then []
    else
      var n := |requested| - 1;
      Missing(requested[..n], allowed) + if requested[n] in allowed then [] else [requested[n]]
  }

  method MissingScopes(requested: seq<string>, allowed: seq<string>) returns (invalid: seq<string>)
    ensures invalid == Missing(requested, allowed)
  {
    if requested == [] { return []; }
    var allowedSet := {};
    for i := 0 to |allowed|
      invariant forall s :: s in allowedSet <==> s in allowed[..i]
    {
      allowedSet := allowedSet + {allowed[i]};
    }
    assert allowed[..|allowed|] == allowed;
    invalid := [];
    for i := 0 to |requested|
      invariant invalid == Missing(requested[..i], allowed)
    {
      assert requested[..i + 1][..i] == requested[..i];
      if requested[i] !in allowedSet {
        invalid := invalid + [requested[i]];
      }
    }
    assert requested[..|requested|] == requested;
  }

  /** Nothing is missing exactly when every requested scope is allowed. */
  lemma {:induction false} NoneMissing(requested: seq<string>, allowed: seq<string>)
    ensures Missing(requested, allowed) == [] <==> forall s | s in requested :: s in allowed
  {
    if requested != [] {
      var n := |requested| - 1;
      NoneMissing(requested[..n], allowed);
      assert requested == requested[..n] + [requested[n]];
    }
  }

  predicate Covers(scopes: seq<string>, required: seq<string>) {
    forall s | s in required :: s in scopes
  }

  method HasScopes(scopes: seq<string>, required: seq<string>) returns (ok: bool)
    ensures ok <==> forall s | s in required :: s in scopes
  {
    if required == [] { return true; }
    var available := {};
    for i := 0 to |scopes|
      invariant forall s :: s in available <==> s in scopes[..i]
    {
      available := available + {scopes[i]};
    }
    assert scopes[..|scopes|] == scopes;
    for i := 0 to |required|
      invariant forall j | 0 <= j < i :: required[j] in scopes
    {
      if required[i] !in available {
        assert required[i] in required;
        return false;
      }
    }
    return true;
  }

  // ---- The tokens table ----

  /** `expiresAt` is in microseconds, the precision of the column. */
  datatype Row = Row(
    userID: Uuid, name: string, scopes: seq<string>, tokenType: string, jti: string,
    expiresAt: int, revoked: bool, lastUsedAt: Option<int>)

  datatype Db = Db(users: set<Uuid>, rows: map<Uuid, Row>)

  datatype CreateParams = CreateParams(
    userID: Uuid, name: string, scopes: seq<string>, tokenType: string, jti: string, expiresAt: int)

  function NewRow(p: CreateParams): Row {
    Row(p.userID, p.name, p.scopes, p.tokenType, p.jti, p.expiresAt / 1000, false, None)
  }

  /** The constraints of the table: a known user, some scope, a new jti. */
  ghost predicate Insertable(db: Db, p: CreateParams) {
    p.userID in db.users && p.scopes != [] && forall id | id in db.rows :: db.rows[id].jti != p.jti
  }

  ghost predicate Finds(db: Db, jti: string, found: Option<(Uuid, Row)>) {
    match found
    case None => forall id | id in db.rows :: db.rows[id].jti != jti
    case Some((id, row)) => id in db.rows && db.rows[id] == row && row.jti == jti
  }

  function Revoked(db: Db, id: Uuid): Db
    requires id in db.rows
  {
    db.(rows := db.rows[id := db.rows[id].(revoked := true)])
  }

  function MarkedUsed(db: Db, id: Uuid, at: int): Db {
    if id in db.rows then db.(rows := db.rows[id := db.rows[id].(lastUsedAt := Some(at))]) else db
  }

  /** Deleting a user takes the user's tokens along. */
  function UserDeleted(db: Db, user: Uuid): Db {
    Db(db.users - {user}, map id | id in db.rows && db.rows[id].userID != user :: db.rows[id])
  }

  datatype Status =
    | OK
    | NameRequired | UserRequired | ScopeRequired | AlreadyExpired | JTIRequired | CreateFailed
    | TokenIDRequired | TokenNotFound
    | MissingClaims | MissingJTI | TypeMismatch | TokenRevoked | SubjectMismatch | TokenExpired

  /** What is stored for accepted parameters. */
  function Stored(p: CreateParams): CreateParams {
    p.(name := TrimSpace(p.name),
       tokenType := if TrimSpace(p.tokenType) == "" then PAT else TrimSpace(p.tokenType))
  }

  function CreateCheck(p: CreateParams, now: int): Status {
    if TrimSpace(p.name) == "" then NameRequired
    else if p.userID == NIL then UserRequired
    else if p.scopes == [] then ScopeRequired
    else if p.expiresAt < now then AlreadyExpired
    else if p.jti == "" then JTIRequired
    else OK
  }

  /** The checks on a looked-up row, in order. */
  function RowCheck(found: Option<(Uuid, Row)>, claims: Claims, now: int): Status {
    match found
    case None => TokenRevoked
    case Some((_, row)) =>
      if row.tokenType != PAT then TypeMismatch
      else if row.revoked then TokenRevoked
      else if claims.subject != User(row.userID) then SubjectMismatch
      else if row.expiresAt * 1000 < now then TokenExpired
      else OK
  }

  /** What validating the claims of a token answers and leaves behind. */
  ghost predicate Validates(s: Db, c: Claims, now: int, usedAt: int, r: Status, after: Db) {
    if TrimSpace(c.jti) == "" then r == MissingJTI && after == s
    else if forall id | id in s.rows :: s.rows[id].jti != c.jti then r == TokenRevoked && after == s
    else exists id | id in s.rows :: RowDecides(s, id, c, now, usedAt, r, after)
  }

  /** The answer when the row found is that of `id`: each refusal says what is
      wrong with the row, and only acceptance changes it, in its last use. */
  ghost predicate RowDecides(s: Db, id: Uuid, c: Claims, now: int, usedAt: int, r: Status, after: Db)
    requires id in s.rows
  {
    var row := s.rows[id];
    var usable := row.tokenType == "pat" && !row.revoked && c.subject == User(row.userID);
    && row.jti == c.jti
    && (r == OK <==> usable && now <= row.expiresAt * 1000)
    && (r == TokenExpired <==> usable && now > row.expiresAt * 1000)
    && (r == SubjectMismatch <==> row.tokenType == "pat" && !row.revoked && c.subject != User(row.userID))
    && (r == TokenRevoked <==> row.tokenType == "pat" && row.revoked)
    && (r == TypeMismatch <==> row.tokenType != "pat")
    && after.users == s.users
    && after.rows == if r == OK then s.rows[id := row.(lastUsedAt := Some(usedAt))] else s.rows
  }

  class TokenService {
    var users: set<Uuid>
    var rows: map<Uuid, Row>

    constructor ()
      ensures State() == Db({}, map[])
    {
      users, rows := {}, map[];
    }

    function State(): Db
      reads this
    {
      Db(users, rows)
    }

    method CreateToken(p: CreateParams, newID: Uuid) returns (ok: bool)
      requires newID !in rows
      modifies this
      ensures ok <==> p.userID in old(users) && p.scopes != [] && forall id | id in old(rows) :: old(rows)[id].jti != p.jti
      ensures ok ==> rows == old(rows)[newID := Row(p.userID, p.name, p.scopes, p.tokenType, p.jti, p.expiresAt / 1000, false, None)]
      ensures State() == if ok then old(State()).(rows := old(rows)[newID := NewRow(p)]) else old(State())
    {
      var found := GetTokenByJTI(p.jti);
      if p.userID !in users || p.scopes == [] || found.Some? { return false; }
      rows := rows[newID := NewRow(p)];
      return true;
    }

    method GetTokenByJTI(jti: string) returns (found: Option<(Uuid, Row)>)
      ensures match found
              case None => forall id | id in rows :: rows[id].jti != jti
              case Some((id, row)) => id in rows && rows[id] == row && row.jti == jti
    {
      if id :| id in rows && rows[id].jti == jti { return Some((id, rows[id])); }
      return None;
    }

    /** `newID` is the row id the database draws. */
    method CreatePersonalAccessToken(p: CreateParams, now: int, newID: Uuid) returns (r: Status)
      requires newID !in rows
      modifies this
      ensures r == OK <==>
                && TrimSpace(p.name) != "" && p.userID != NIL && p.scopes != [] && now <= p.expiresAt && p.jti != ""
                && p.userID in old(users) && forall id | id in old(rows) :: old(rows)[id].jti != p.jti
      ensures match r
              case NameRequired => TrimSpace(p.name) == ""
              case UserRequired => p.userID == NIL
              case ScopeRequired => p.scopes == []
              case AlreadyExpired => p.expiresAt < now
              case JTIRequired => p.jti == ""
              case CreateFailed => p.userID !in old(users) || exists id | id in old(rows) :: old(rows)[id].jti == p.jti
              case other => r == OK
      ensures r == OK ==> rows == old(rows)[newID := Row(p.userID, TrimSpace(p.name), p.scopes,
                            if TrimSpace(p.tokenType) != "" then TrimSpace(p.tokenType) else "pat", p.jti, p.expiresAt / 1000, false, None)]
      ensures CreateCheck(p, now) != OK ==> r == CreateCheck(p, now)
      ensures CreateCheck(p, now) == OK ==> r == if Insertable(old(State()), Stored(p)) then OK else CreateFailed
      ensures State() == if r == OK then old(State()).(rows := old(rows)[newID := NewRow(Stored(p))]) else old(State())
    {
      hide TrimSpace;
      var name := TrimSpace(p.name);
      if name == "" { return NameRequired; }
      if p.userID == NIL { return UserRequired; }
      if p.scopes == [] { return ScopeRequired; }
      if p.expiresAt < now { return AlreadyExpired; }
      if p.jti == "" { return JTIRequired; }
      var tokenType := TrimSpace(p.tokenType);
      if tokenType == "" { tokenType := PAT; }
      var ok := CreateToken(CreateParams(p.userID, name, p.scopes, tokenType, p.jti, p.expiresAt), newID);
      return if ok then OK else CreateFailed;
    }

    method RevokePersonalAccessToken(userID: Uuid, tokenID: Uuid) returns (r: Status)
      modifies this
      ensures var s := old(State());
              if userID == NIL || tokenID == NIL then r == TokenIDRequired && State() == s
              else if tokenID !in s.rows || s.rows[tokenID].userID != userID then r == TokenNotFound && State() == s
              else r == OK && State() == Revoked(s, tokenID)
      ensures r == OK <==> userID != NIL && tokenID != NIL && tokenID in old(rows) && old(rows)[tokenID].userID == userID
      ensures users == old(users) && rows.Keys == old(rows).Keys
      ensures r == OK ==> rows[tokenID].revoked && rows[tokenID] == old(rows)[tokenID].(revoked := true)
      ensures forall id | id in rows && (r != OK || id != tokenID) :: rows[id] == old(rows)[id]
    {
      if userID == NIL || tokenID == NIL { return TokenIDRequired; }
      if tokenID !in rows || rows[tokenID].userID != userID { return TokenNotFound; }
      rows := rows[tokenID := rows[tokenID].(revoked := true)];
      return OK;
    }

    /** `now` is the reading for the expiry check, `usedAt` the database's time. */
    method ValidatePAT(claims: Option<Claims>, now: int, usedAt: int) returns (r: Status)
      modifies this
      ensures match claims
              case None => r == MissingClaims && State() == old(State())
              case Some(c) => Validates(old(State()), c, now, usedAt, r, State())
    {
      hide TrimSpace;
      if claims.None? { return MissingClaims; }
      var c := claims.value;
      if TrimSpace(c.jti) == "" { return MissingJTI; }
      var found := GetTokenByJTI(c.jti);
      assert Finds(State(), c.jti, found);
      if found.None? { return TokenRevoked; }
      var (id, record) := found.value;
      ghost var s := State();
      assert id in s.rows && s.rows[id] == record;
      if record.tokenType != PAT {
        assert RowDecides(s, id, c, now, usedAt, TypeMismatch, s);
        return TypeMismatch;
      }
      if record.revoked {
        assert RowDecides(s, id, c, now, usedAt, TokenRevoked, s);
        return TokenRevoked;
      }
      if User(record.userID) != c.subject {
        assert RowDecides(s, id, c, now, usedAt, SubjectMismatch, s);
        return SubjectMismatch;
      }
      if record.expiresAt * 1000 < now {
        assert RowDecides(s, id, c, now, usedAt, TokenExpired, s);
        return TokenExpired;
      }
      rows := rows[id := record.(lastUsedAt := Some(usedAt))];
      assert RowDecides(s, id, c, now, usedAt, OK, State());
      return OK;
    }
  }

  // ---- The minting request ----

  datatype MintRequest = MintRequest(name: string, scopes: seq<string>, expiresIn: Int64)

  datatype Prepared =
    | Ready(params: CreateParams)
    | BadSubject | PATCannotManage | NoName | NoScopes | ScopesExceeded | TooShort | TooLong

  /** Two's-complement wrap-around of a 64-bit product. */
  function Wrap64(n: int): Int64 {
    (n + 0x8000_0000_0000_0000) % 0x1_0000_0000_0000_0000 - 0x8000_0000_0000_0000
  }

  function Lifetime(expiresIn: Int64): Int64 {
    if expiresIn == 0 then DEFAULT_TTL else expiresIn
  }

  /** `HandleCreateToken` up to the parameters of the new row. */
  function Prepare(claims: Claims, req: MintRequest, now: int, jti: string): Prepared {
    if !claims.subject.User? then BadSubject
    else if claims.tokenType == PAT then PATCannotManage
    else if TrimSpace(req.name) == "" then NoName
    else if Distinct(req.scopes) == [] then NoScopes
    else if Missing(Distinct(req.scopes), claims.scopes) != [] then ScopesExceeded
    else if Lifetime(req.expiresIn) < MIN_TTL then TooShort
    else if Lifetime(req.expiresIn) > MAX_TTL then TooLong
    else Ready(CreateParams(claims.subject.id, TrimSpace(req.name), Distinct(req.scopes), PAT, jti,
                            now + Wrap64(Lifetime(req.expiresIn) * NANOS)))
  }

  /** A request is accepted exactly when it comes from a session, names the token,
      asks for some scope and for none the session does not hold, and for no
      lifetime or one of an hour to ninety days. */
  lemma MintingAccepted(claims: Claims, req: MintRequest, now: int, jti: string)
    ensures Prepare(claims, req, now, jti).Ready? <==>
            && claims.subject.User? && claims.tokenType != "pat" && TrimSpace(req.name) != ""
            && (exists s | s in req.scopes :: TrimSpace(s) != "")
            && (forall s | s in req.scopes && TrimSpace(s) != "" :: TrimSpace(s) in claims.scopes)
            && (req.expiresIn == 0 || 3600 <= req.expiresIn <= 7_776_000)
    ensures match Prepare(claims, req, now, jti)
            case Ready(p) =>
              && claims.subject == User(p.userID) && p.name == TrimSpace(req.name) && p.scopes == Distinct(req.scopes)
              && p.tokenType == "pat" && p.jti == jti
              && p.expiresAt == now + (if req.expiresIn == 0 then 2_592_000 else req.expiresIn) * 1_000_000_000
            case BadSubject => !claims.subject.User?
            case PATCannotManage => claims.tokenType == "pat"
            case NoName => TrimSpace(req.name) == ""
            case NoScopes => forall s | s in req.scopes :: TrimSpace(s) == ""
            case ScopesExceeded => exists s | s in req.scopes :: TrimSpace(s) != "" && TrimSpace(s) !in claims.scopes
            case TooShort => req.expiresIn != 0 && req.expiresIn < 3600
            case TooLong => req.expiresIn > 7_776_000
  {
    hide TrimSpace, Distinct, Missing;
    DistinctCovers(req.scopes, claims.scopes);
    NoneMissing(Distinct(req.scopes), claims.scopes);
    if Prepare(claims, req, now, jti).Ready? { LifetimeBounded(claims, req, now, jti); }
  }

  /** Requiring the distinct scopes is requiring the trimmed non-blank ones. */
  lemma DistinctCovers(scopes: seq<string>, held: seq<string>)
    ensures Covers(held, Distinct(scopes)) <==> forall s | s in scopes && TrimSpace(s) != "" :: TrimSpace(s) in held
    ensures Distinct(scopes) == [] <==> forall s | s in scopes :: TrimSpace(s) == ""
  {
    hide TrimSpace, Distinct;
    forall v ensures v in Distinct(scopes) <==> v != "" && exists s | s in scopes :: TrimSpace(s) == v {
      DistinctMembers(scopes, v);
      MentionsIs(scopes, v);
    }
    forall s | s in scopes && TrimSpace(s) != "" ensures TrimSpace(s) in Distinct(scopes) {}
    if Distinct(scopes) != [] { assert Distinct(scopes)[0] in Distinct(scopes); }
  }

  lemma MentionsIs(values: seq<string>, v: string)
    ensures Mentions(values, v) <==> exists s | s in values :: TrimSpace(s) == v
  {
    hide TrimSpace;
    if s :| s in values && TrimSpace(s) == v {
      var i :| 0 <= i < |values| && values[i] == s;
      assert TrimSpace(values[i]) == v;
    }
  }

  /** Whatever lifetime a request asks for, the product of seconds and
      nanoseconds that is formed does not overflow 64 bits, and the token ends
      between one hour and ninety days from now. */
  lemma LifetimeBounded(claims: Claims, req: MintRequest, now: int, jti: string)
    requires Prepare(claims, req, now, jti).Ready?
    ensures var p := Prepare(claims, req, now, jti).params;
            && p.expiresAt == now + Lifetime(req.expiresIn) * NANOS
            && now + MIN_TTL * NANOS <= p.expiresAt <= now + MAX_TTL * NANOS
  {
    hide TrimSpace, Distinct, Missing;
  }

  /** A prepared token asks for nothing its minting session does not hold. */
  lemma PreparedWithinMinter(claims: Claims, req: MintRequest, now: int, jti: string)
    requires Prepare(claims, req, now, jti).Ready?
    ensures var p := Prepare(claims, req, now, jti).params;
            && claims.tokenType != PAT && (forall s | s in p.scopes :: s in claims.scopes) && p.scopes != []
            && claims.subject == User(p.userID) && p.jti == jti && p.tokenType == PAT
  {
    hide TrimSpace, Distinct, Missing;
    NoneMissing(Distinct(req.scopes), claims.scopes);
  }

  /** The external subject written into a token. */
  function ExternalSubject(claims: Claims, subjectText: string): string {
    if TrimSpace(claims.extSub) == "" then subjectText else claims.extSub
  }

  /** A row is left without a token exactly when the session's claims lack a
      field or the clock has passed the expiry. */
  lemma SigningSucceeds(claims: Claims, subjectText: string, req: MintRequest, now1: int, now2: int, now3: int, jti: string)
    requires Prepare(claims, req, now1, jti).Ready?
    requires CreateCheck(Prepare(claims, req, now1, jti).params, now2) == OK
    ensures var p := Prepare(claims, req, now1, jti).params;
            var issued := IssuePAT(p.userID, ExternalSubject(claims, subjectText), claims.email, claims.role, p.scopes, jti, p.expiresAt, now3);
            issued.Signed? <==>
              && claims.email != "" && claims.role != "" && (TrimSpace(claims.extSub) != "" || subjectText != "")
              && now3 <= p.expiresAt && now1 + Lifetime(req.expiresIn) * NANOS != ZERO_TIME
  {
    BlankIsEmpty(claims.extSub);
    LifetimeBounded(claims, req, now1, jti);
    PreparedWithinMinter(claims, req, now1, jti);
    hide TrimSpace, Prepare, Distinct;
  }

  lemma BlankIsEmpty(s: string)
    ensures s == "" ==> TrimSpace(s) == ""
  {
  }

  datatype MintResult = Minted(token: Claims) | Refused(why: Prepared) | NotStored(status: Status) | NotSigned(issue: IssueResult)

  /** `HandleCreateToken`: three clock readings, then the row, then the token. When
      signing refuses, the row stays without a token. */
  method HandleCreateToken(svc: TokenService, claims: Claims, subjectText: string, req: MintRequest,
                           now1: int, now2: int, now3: int, jti: string, newID: Uuid) returns (r: MintResult)
    requires newID !in svc.rows
    modifies svc
    ensures var s, prepared := old(svc.State()), Prepare(claims, req, now1, jti);
            if !prepared.Ready? then r == Refused(prepared) && svc.State() == s
            else
              var p := prepared.params;
              if CreateCheck(p, now2) != OK || !Insertable(s, Stored(p)) then r.NotStored? && svc.State() == s
              else
                && svc.State() == s.(rows := s.rows[newID := NewRow(Stored(p))])
                && match IssuePAT(p.userID, ExternalSubject(claims, subjectText), claims.email, claims.role, p.scopes, jti, p.expiresAt, now3)
                   case Signed(token) => r == Minted(token)
                   case refusal => r == NotSigned(refusal)
    ensures r.Minted? || r.NotSigned? ==>
              && claims.subject.User? && svc.users == old(svc.users)
              && svc.rows == old(svc.rows)[newID := Row(claims.subject.id, TrimSpace(req.name), Distinct(req.scopes), "pat", jti,
                   (now1 + (if req.expiresIn == 0 then 2_592_000 else req.expiresIn) * 1_000_000_000) / 1000, false, None)]
    ensures r.Minted? ==>
              && r.token.subject == claims.subject && r.token.email == claims.email && r.token.role == claims.role
              && r.token.extSub == (if TrimSpace(claims.extSub) != "" then claims.extSub else subjectText)
              && r.token.scopes == Distinct(req.scopes) && r.token.tokenType == "pat" && r.token.jti == jti
              && r.token.exp == svc.rows[newID].expiresAt / 1_000_000
  {
    hide TrimSpace, Distinct, Missing, IssuePAT, CreateCheck, Insertable;
    MintingAccepted(claims, req, now1, jti);
    if !claims.subject.User? { return Refused(BadSubject); }
    if claims.tokenType == PAT { return Refused(PATCannotManage); }
    var name := TrimSpace(req.name);
    if name == "" { return Refused(NoName); }
    var scopes := Dedupe(req.scopes);
    if scopes == [] { return Refused(NoScopes); }
    var invalid := MissingScopes(scopes, claims.scopes);
    if invalid != [] { return Refused(ScopesExceeded); }
    var expiresIn := req.expiresIn;
    if expiresIn == 0 { expiresIn := DEFAULT_TTL; }
    if expiresIn < MIN_TTL { return Refused(TooShort); }
    if expiresIn > MAX_TTL { return Refused(TooLong); }
    var expiresAt := now1 + Wrap64(expiresIn * NANOS);
    var params := CreateParams(claims.subject.id, name, scopes, PAT, jti, expiresAt);
    var stored := svc.CreatePersonalAccessToken(params, now2, newID);
    if stored != OK { return NotStored(stored); }
    var issued := IssuePAT(claims.subject.id, ExternalSubject(claims, subjectText), claims.email, claims.role,
                           scopes, jti, expiresAt, now3);
    PATIssued(claims.subject.id, ExternalSubject(claims, subjectText), claims.email, claims.role, scopes, jti, expiresAt, now3);
    ExpiryAgrees(expiresAt);
    return if issued.Signed? then Minted(issued.claims) else NotSigned(issued);
  }

  datatype Access = Allowed | Denied(status: Status) | InsufficientScope

  /** `Require` on a verified token: a PAT is validated first, then the scopes
      are compared. */
  method Require(svc: TokenService, claims: Claims, scopes: seq<string>, now: int, usedAt: int) returns (r: Access)
    modifies svc
    ensures var covered := forall s | s in scopes && TrimSpace(s) != "" :: TrimSpace(s) in claims.scopes;
            var passed := if covered then Allowed else InsufficientScope;
            if claims.tokenType != PAT then r == passed && svc.State() == old(svc.State())
            else
              var status := if r.Denied? then r.status else OK;
              && Validates(old(svc.State()), claims, now, usedAt, status, svc.State())
              && r == if status == OK then passed else Denied(status)
  {
    hide TrimSpace, Distinct, Validates;
    DistinctCovers(scopes, claims.scopes);
    var required := Dedupe(scopes);
    if claims.tokenType == PAT {
      var status := svc.ValidatePAT(Some(claims), now, usedAt);
      if status != OK { return Denied(status); }
    }
    var ok := HasScopes(claims.scopes, required);
    return if ok then Allowed else InsufficientScope;
  }

  /** The signed expiry is the row's, rounded down to a second. */
  lemma ExpiryAgrees(expiresAt: int)
    ensures expiresAt / NANOS == (expiresAt / 1000) / 1_000_000
  {
  }
}

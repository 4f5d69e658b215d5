/** The store of OAuth `state` parameters (section 10.12 of RFC 6749): single
    use, expiring, cleaned up eagerly. Clock readings are arguments. */
module StateStore {

  /** Entries not yet past their expiry. */
  function Live(state: map<string, int>, now: int): map<string, int> {
    map token | token in state && now <= state[token] :: state[token]
  }

  function Issued(state: map<string, int>, ttl: int, cleanupAt: int, issuedAt: int, token: string): map<string, int> {
    Live(state, cleanupAt)[token := issuedAt + ttl]
  }

  function Consumed(state: map<string, int>, token: string, cleanupAt: int, checkedAt: int): (map<string, int>, bool) {
    if token == "" then (state, false)
    else
      var live := Live(state, cleanupAt);
      (live - {token}, token in live && checkedAt <= live[token])
  }

  class StateStore {
    const ttl: int
    var state: map<string, int>

    constructor (ttl: int)
      ensures this.ttl == ttl && state == map[]
    {
      this.ttl := ttl;
      state := map[];
    }

    /** `token` is the identifier drawn for this call. */
    method Issue(cleanupAt: int, issuedAt: int, token: string) returns (r: string)
      modifies this
      ensures r == token
      ensures state == Issued(old(state), ttl, cleanupAt, issuedAt, token)
    {
      Cleanup(cleanupAt);
      state := state[token := issuedAt + ttl];
      return token;
    }

    /** Reads the clock twice: for the cleanup and for the entry itself. */
    method Consume(token: string, cleanupAt: int, checkedAt: int) returns (ok: bool)
      modifies this
      ensures (state, ok) == Consumed(old(state), token, cleanupAt, checkedAt)
    {
      if token == "" { return false; }
      Cleanup(cleanupAt);
      if token !in state {
        assert state - {token} == state;
        return false;
      }
      if state[token] < checkedAt {
        state := state - {token};
        return false;
      }
      state := state - {token};
      return true;
    }

    /** Visits the entries in any order, deleting the expired ones. */
    method Cleanup(now: int)
      modifies this
      ensures state == Live(old(state), now)
    {
      var todo := state.Keys;
      while todo != {}
        invariant todo <= old(state).Keys
        invariant state == map t | t in old(state) && (t in todo || now <= old(state)[t]) :: old(state)[t]
      {
        var token :| token in todo;
        if state[token] < now {
          state := state - {token};
        }
        todo := todo - {token};
      }
    }
  }

  datatype Op =
    | Issue(cleanupAt: int, issuedAt: int, token: string)
    | Consume(token: string, cleanupAt: int, checkedAt: int)

  /** State and answers after a sequence of calls; issuing answers true. */
  function Run(ttl: int, ops: seq<Op>): (r: (map<string, int>, seq<bool>))
    ensures |r.1| == |ops|
  {
    if ops == [] then (map[], [])
    else
      var (state, answers) := Run(ttl, ops[..|ops| - 1]);
      match ops[|ops| - 1]
      case Issue(c, i, token) => (Issued(state, ttl, c, i, token), answers + [true])
      case Consume(token, c, k) =>
        var (next, ok) := Consumed(state, token, c, k);
        (next, answers + [ok])
  }

  /** A store that never cleans up: what was issued, until when, and what has
      been used. */
  datatype Ledger = Ledger(expiry: map<string, int>, used: set<string>)

  function Accepts(l: Ledger, token: string, at: int): bool {
    token in l.expiry && token !in l.used && at <= l.expiry[token]
  }

  function RunLedger(ttl: int, ops: seq<Op>): (r: (Ledger, seq<bool>))
    ensures |r.1| == |ops|
  {
    if ops == [] then (Ledger(map[], {}), [])
    else
      var (l, answers) := RunLedger(ttl, ops[..|ops| - 1]);
      match ops[|ops| - 1]
      case Issue(_, i, token) => (l.(expiry := l.expiry[token := i + ttl]), answers + [true])
      case Consume(token, _, k) =>
        var ok := Accepts(l, token, k);
        (if ok then l.(used := l.used + {token}) else l, answers + [ok])
  }

  /** The last clock reading after `ops`, the first being no earlier than
      `start`. Consuming the empty token reads no clock. */
  function Clock(ops: seq<Op>, start: int): int {
    if ops == [] then start
    else
      match ops[|ops| - 1]
      case Issue(_, i, _) => i
      case Consume(token, _, k) => if token == "" then Clock(ops[..|ops| - 1], start) else k
  }

  /** The readings never go back. */
  ghost predicate Timely(ops: seq<Op>, start: int) {
    ops == [] ||
    (var init := ops[..|ops| - 1];
     && Timely(init, start)
     && match ops[|ops| - 1]
        case Issue(c, i, _) => Clock(init, start) <= c <= i
        case Consume(token, c, k) => token == "" || Clock(init, start) <= c <= k)
  }

  /** Issued tokens are not empty and not drawn twice. */
  ghost predicate FreshTokens(ops: seq<Op>) {
    && (forall i | 0 <= i < |ops| && ops[i].Issue? :: ops[i].token != "")
    && (forall i, j | 0 <= i < j < |ops| && ops[i].Issue? && ops[j].Issue? :: ops[i].token != ops[j].token)
  }

  /** The store holds what the ledger still honours, and may have dropped only
      what has expired. */
  ghost predicate Matches(state: map<string, int>, l: Ledger, now: int) {
    && (forall t | t in state :: t in l.expiry && t !in l.used && state[t] == l.expiry[t])
    && (forall t | t in l.expiry && t !in l.used && t !in state :: l.expiry[t] < now)
  }

  ghost predicate IssuedIn(ops: seq<Op>, token: string) {
    exists i | 0 <= i < |ops| :: ops[i].Issue? && ops[i].token == token
  }

  lemma MatchesIssue(state: map<string, int>, l: Ledger, now: int, ttl: int, c: int, i: int, token: string)
    requires Matches(state, l, now) && now <= c <= i
    requires token !in l.expiry && token !in l.used
    ensures Matches(Issued(state, ttl, c, i, token), l.(expiry := l.expiry[token := i + ttl]), i)
  {
  }

  lemma MatchesConsume(state: map<string, int>, l: Ledger, now: int, token: string, c: int, k: int)
    requires Matches(state, l, now) && now <= c <= k && token != ""
    ensures var (next, ok) := Consumed(state, token, c, k);
            && ok == Accepts(l, token, k)
            && Matches(next, if ok then l.(used := l.used + {token}) else l, k)
  {
  }

  /** The ledger knows only of tokens that were issued. */
  lemma {:induction false} LedgerKnows(ttl: int, ops: seq<Op>)
    ensures forall t | t in RunLedger(ttl, ops).0.expiry || t in RunLedger(ttl, ops).0.used :: IssuedIn(ops, t)
  {
    if ops != [] {
      hide IssuedIn;
      LedgerKnows(ttl, ops[..|ops| - 1]);
      IssuedInStep(ops);
    }
  }

  /** For every sequence of calls, under a clock that does not go back and fresh
      tokens, the answers are those of the ledger. */
  lemma {:induction false} StoreRefinesLedger(ttl: int, ops: seq<Op>, start: int)
    requires Timely(ops, start) && FreshTokens(ops)
    ensures Run(ttl, ops).1 == RunLedger(ttl, ops).1
    ensures Matches(Run(ttl, ops).0, RunLedger(ttl, ops).0, Clock(ops, start))
  {
    if ops != [] {
      var n := |ops| - 1;
      var init := ops[..n];
      assert forall i | 0 <= i < n :: init[i] == ops[i];
      StoreRefinesLedger(ttl, init, start);
      LedgerKnows(ttl, init);
      assert ops[n].Issue? ==> !IssuedIn(init, ops[n].token);
      assert !IssuedIn(init, "");
      hide Matches, Issued, Consumed, FreshTokens, IssuedIn;
      var (state, l, now) := (Run(ttl, init).0, RunLedger(ttl, init).0, Clock(init, start));
      match ops[n]
      case Issue(c, i, token) => MatchesIssue(state, l, now, ttl, c, i, token);
      case Consume(token, c, k) =>
        if token == "" {
          EmptyNeverAccepted(state, l, c, k);
        } else {
          MatchesConsume(state, l, now, token, c, k);
        }
    }
  }

  lemma EmptyNeverAccepted(state: map<string, int>, l: Ledger, c: int, k: int)
    requires "" !in l.expiry
    ensures Consumed(state, "", c, k) == (state, false) && !Accepts(l, "", k)
  {
  }

  lemma IssuedInStep(ops: seq<Op>)
    requires ops != []
    ensures var n := |ops| - 1;
            forall t :: IssuedIn(ops, t) <==> IssuedIn(ops[..n], t) || (ops[n].Issue? && ops[n].token == t)
  {
    var n := |ops| - 1;
    forall t ensures IssuedIn(ops, t) <==> IssuedIn(ops[..n], t) || (ops[n].Issue? && ops[n].token == t) {
      if IssuedIn(ops[..n], t) {
        var i :| 0 <= i < n && ops[..n][i].Issue? && ops[..n][i].token == t;
        assert ops[i].Issue? && ops[i].token == t;
      }
      if IssuedIn(ops, t) {
        var i :| 0 <= i < |ops| && ops[i].Issue? && ops[i].token == t;
        if i < n { assert ops[..n][i].Issue? && ops[..n][i].token == t; }
      }
    }
  }

  /** Call `i` issued `token` to last until `until`. */
  ghost predicate IssuesUntil(ttl: int, op: Op, token: string, until: int) {
    op.Issue? && op.token == token && op.issuedAt + ttl == until
  }

  /** Call `j` consumed `token` with success. */
  ghost predicate Spends(op: Op, answer: bool, token: string) {
    op.Consume? && op.token == token && answer
  }

  /** What the ledger records, in terms of the calls. */
  lemma {:induction false} LedgerMeaning(ttl: int, ops: seq<Op>, token: string)
    requires FreshTokens(ops)
    ensures var (l, answers) := RunLedger(ttl, ops);
            && (token in l.used <==> exists j | 0 <= j < |ops| :: Spends(ops[j], answers[j], token))
            && (forall i | 0 <= i < |ops| && ops[i].Issue? && ops[i].token == token ::
                  token in l.expiry && l.expiry[token] == ops[i].issuedAt + ttl)
            && (token in l.expiry ==> exists i | 0 <= i < |ops| :: IssuesUntil(ttl, ops[i], token, l.expiry[token]))
  {
    if ops != [] {
      var n := |ops| - 1;
      var init := ops[..n];
      assert forall i | 0 <= i < n :: init[i] == ops[i];
      LedgerMeaning(ttl, init, token);
      var (l0, a0) := RunLedger(ttl, init);
      var (l, a) := RunLedger(ttl, ops);
      assert forall j | 0 <= j < n :: a[j] == a0[j];
      assert Spends(ops[n], a[n], token) <==> ops[n].Consume? && ops[n].token == token && a[n];
      if token in l0.expiry {
        var i :| 0 <= i < n && IssuesUntil(ttl, init[i], token, l0.expiry[token]);
        assert IssuesUntil(ttl, ops[i], token, l0.expiry[token]);
      }
      if token in l.expiry && token !in l0.expiry {
        assert IssuesUntil(ttl, ops[n], token, l.expiry[token]);
      }
      if token in l0.used {
        var j :| 0 <= j < n && Spends(init[j], a0[j], token);
        assert Spends(ops[j], a[j], token);
      }
    }
  }

  /** Consuming succeeds exactly when the token was issued before, has not been
      consumed, and the second clock reading is not past its expiry. */
  lemma ConsumeExactly(ttl: int, ops: seq<Op>, start: int)
    requires Timely(ops, start) && FreshTokens(ops)
    requires ops != [] && ops[|ops| - 1].Consume?
    ensures var n := |ops| - 1;
            var answers := Run(ttl, ops).1;
            answers[n] <==>
              && (exists i | 0 <= i < n :: ops[i].Issue? && ops[i].token == ops[n].token && ops[n].checkedAt <= ops[i].issuedAt + ttl)
              && (forall j | 0 <= j < n :: !Spends(ops[j], answers[j], ops[n].token))
  {
    var n := |ops| - 1;
    var init, token := ops[..n], ops[n].token;
    assert forall i | 0 <= i < n :: init[i] == ops[i];
    StoreRefinesLedger(ttl, ops, start);
    LedgerMeaning(ttl, init, token);
    var (l, a0) := RunLedger(ttl, init);
    var answers := Run(ttl, ops).1;
    assert forall j | 0 <= j < n :: answers[j] == a0[j];
    assert answers[n] == Accepts(l, token, ops[n].checkedAt);
    if token in l.expiry {
      var i :| 0 <= i < n && IssuesUntil(ttl, init[i], token, l.expiry[token]);
      assert ops[i].token == token;
    }
    if exists j | 0 <= j < n :: Spends(ops[j], answers[j], token) {
      var j :| 0 <= j < n && Spends(ops[j], answers[j], token);
      assert Spends(init[j], a0[j], token);
    }
    if exists j | 0 <= j < n :: Spends(init[j], a0[j], token) {
      var j :| 0 <= j < n && Spends(init[j], a0[j], token);
      assert Spends(ops[j], answers[j], token);
    }
  }

  lemma {:induction false} RunPrefix(ttl: int, ops: seq<Op>, k: nat)
    requires k <= |ops|
    ensures Run(ttl, ops[..k]).1 == Run(ttl, ops).1[..k]
    decreases |ops| - k
  {
    if k == |ops| {
      assert ops[..k] == ops;
    } else {
      RunPrefix(ttl, ops, k + 1);
      assert ops[..k + 1][..k] == ops[..k];
      assert Run(ttl, ops[..k + 1]).1[..k] == Run(ttl, ops[..k]).1;
    }
  }

  lemma {:induction false} TimelyPrefix(ops: seq<Op>, start: int, k: nat)
    requires Timely(ops, start) && k <= |ops|
    ensures Timely(ops[..k], start)
  {
    if k == |ops| {
      assert ops[..k] == ops;
    } else {
      TimelyPrefix(ops[..|ops| - 1], start, k);
      assert ops[..|ops| - 1][..k] == ops[..k];
    }
  }

  lemma FreshPrefix(ops: seq<Op>, k: nat)
    requires FreshTokens(ops) && k <= |ops|
    ensures FreshTokens(ops[..k])
  {
  }

  /** No token is accepted twice. */
  lemma SingleUse(ttl: int, ops: seq<Op>, start: int, i: nat, j: nat)
    requires Timely(ops, start) && FreshTokens(ops) && i < j < |ops|
    requires ops[i].Consume? && ops[j].Consume? && ops[i].token == ops[j].token
    ensures !(Run(ttl, ops).1[i] && Run(ttl, ops).1[j])
  {
    hide Run, Timely, FreshTokens;
    var head := ops[..j + 1];
    FreshPrefix(ops, j + 1);
    TimelyPrefix(ops, start, j + 1);
    RunPrefix(ttl, ops, j + 1);
    ConsumeExactly(ttl, head, start);
    var answers := Run(ttl, head).1;
    assert answers[j] ==> !Spends(head[i], answers[i], head[j].token);
  }

  // ---- How large the store grows ----

  /** How many calls issued a token no earlier than `cutoff`. */
  function RecentIssues(ops: seq<Op>, cutoff: int): nat {
    if ops == [] then 0
    else
      var op := ops[|ops| - 1];
      RecentIssues(ops[..|ops| - 1], cutoff) + if op.Issue? && op.issuedAt >= cutoff then 1 else 0
  }

  function RecentTokens(ops: seq<Op>, cutoff: int): set<string> {
    if ops == [] then {}
    else
      var op := ops[|ops| - 1];
      RecentTokens(ops[..|ops| - 1], cutoff) + if op.Issue? && op.issuedAt >= cutoff then {op.token} else {}
  }

  lemma {:induction false} TokensWithinIssues(ops: seq<Op>, cutoff: int)
    ensures |RecentTokens(ops, cutoff)| <= RecentIssues(ops, cutoff)
  {
    if ops != [] {
      var op, init := ops[|ops| - 1], ops[..|ops| - 1];
      TokensWithinIssues(init, cutoff);
      if op.Issue? && op.issuedAt >= cutoff {
        UnionSize(RecentTokens(init, cutoff), op.token);
      }
    }
  }

  lemma UnionSize(s: set<string>, x: string)
    ensures |s + {x}| <= |s| + 1
  {
  }

  lemma {:induction false} EntriesAreRecent(ttl: int, ops: seq<Op>, cutoff: int)
    ensures var m := Run(ttl, ops).0;
            forall t | t in m && m[t] >= cutoff + ttl :: t in RecentTokens(ops, cutoff)
  {
    if ops != [] { EntriesAreRecent(ttl, ops[..|ops| - 1], cutoff); }
  }

  lemma SubsetSize(a: set<string>, b: set<string>)
    requires a <= b
    ensures |a| <= |b|
  {
    assert b == a + (b - a);
  }

  /** Right after a token is issued at clock reading `c`, the store holds no
      more entries than tokens were issued since `c - ttl`, counting this one. */
  ghost predicate Bounded(ttl: int, ops: seq<Op>)
    requires ops != [] && ops[|ops| - 1].Issue?
  {
    |Run(ttl, ops).0| <= RecentIssues(ops, ops[|ops| - 1].cleanupAt - ttl)
  }

  ghost predicate AlwaysBounded(ttl: int) {
    forall ops: seq<Op>, start: int | Timely(ops, start) && ops != [] && ops[|ops| - 1].Issue? :: Bounded(ttl, ops)
  }

  /** The bound holds for every history exactly when tokens do not expire before
      they are issued; the service runs with five minutes. */
  lemma StoreIsBounded(ttl: int)
    ensures AlwaysBounded(ttl) <==> ttl >= 0
  {
    if ttl >= 0 {
      forall ops: seq<Op>, start: int | Timely(ops, start) && ops != [] && ops[|ops| - 1].Issue?
        ensures Bounded(ttl, ops)
      {
        var cutoff := ops[|ops| - 1].cleanupAt - ttl;
        EntriesAreRecent(ttl, ops, cutoff);
        TokensWithinIssues(ops, cutoff);
        SubsetSize(Run(ttl, ops).0.Keys, RecentTokens(ops, cutoff));
        assert |Run(ttl, ops).0| == |Run(ttl, ops).0.Keys|;
      }
    } else {
      FirstIssueBreaksBound(ttl);
    }
  }

  lemma FirstIssueBreaksBound(ttl: int)
    requires ttl < 0
    ensures !AlwaysBounded(ttl)
  {
    var ops := [Issue(0, 0, "t")];
    assert ops[..0] == [] && Timely(ops[..0], 0);
    assert Timely(ops, 0);
    assert Run(ttl, []).0 == map[] && RecentIssues([], -ttl) == 0;
    var m := Run(ttl, ops).0;
    assert m.Keys == {"t"} && |m| == |m.Keys| == 1;
    assert RecentIssues(ops, -ttl) == 0;
    assert !Bounded(ttl, ops);
  }
}

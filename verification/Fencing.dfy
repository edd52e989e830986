/** Fencing tokens (internal/fencing/manager.go over internal/storage/fencing_store.go):
    one counter per resource, a table of issued tokens, and the rule that says which
    token still counts. A token is modelled by the pair it is computed from. */
module Fencing {
  import opened Clock

  datatype Token = Token(path: string, sequence: nat)
  datatype TokenRow = TokenRow(holder: string, issuedAt: int, expiresAt: int, revoked: bool)
  datatype Store = Store(counters: map<string, nat>, tokens: map<Token, TokenRow>)

  datatype Verdict = TokenNotFound | TokenMismatch | TokenStale | TokenRevoked | TokenExpired | TokenValid
  datatype IssueResult = Issued(token: Token) | NotIssued

  /** The sequence the next token of a resource gets. */
  function NextSequence(s: Store, path: string): nat {
    if path in s.counters then s.counters[path] else 1
  }

  /** The sequence of the last token of a resource, 0 when there is none. */
  function CurrentSequence(s: Store, path: string): nat {
    if path !in s.counters || s.counters[path] <= 1 then 0 else s.counters[path] - 1
  }

  predicate Issuable(path: string, holder: string, leaseSec: int) {
    path != "" && holder != "" && leaseSec > 0
  }

  function AfterIssue(s: Store, path: string, holder: string, leaseSec: int, now: int): Store {
    if !Issuable(path, holder, leaseSec) then s
    else
      var next := NextSequence(s, path);
      Store(s.counters[path := next + 1],
            s.tokens[Token(path, next) := TokenRow(holder, now, now + leaseSec * SECOND, false)])
  }

  function AfterRevoke(s: Store, token: Token): Store {
    if token !in s.tokens then s
    else s.(tokens := s.tokens[token := s.tokens[token].(revoked := true)])
  }

  function Validate(s: Store, token: Token, path: string, holder: string, now: int): Verdict {
    if token !in s.tokens then TokenNotFound
    else if token.path != path || s.tokens[token].holder != holder then TokenMismatch
    else if token.sequence < CurrentSequence(s, path) then TokenStale
    else if s.tokens[token].revoked then TokenRevoked
    else if now >= s.tokens[token].expiresAt then TokenExpired
    else TokenValid
  }

  /** Counters are past every sequence issued. */
  ghost predicate StoreOk(s: Store) {
    && (forall p | p in s.counters :: s.counters[p] >= 2)
    && (forall t | t in s.tokens :: 1 <= t.sequence < NextSequence(s, t.path))
  }

  class Manager {
    var counters: map<string, nat>
    var tokens: map<Token, TokenRow>

    constructor ()
      ensures Contents() == Store(map[], map[]) && StoreOk(Contents())
    {
      counters, tokens := map[], map[];
    }

    ghost function Contents(): Store
      reads this
    {
      Store(counters, tokens)
    }

    method TakeSequence(path: string) returns (next: nat)
      modifies this`counters
      ensures next == old(NextSequence(Contents(), path))
      ensures counters == old(counters)[path := next + 1]
    {
      if path !in counters {
        next := 1;
        counters := counters[path := 2];
      } else {
        next := counters[path];
        counters := counters[path := next + 1];
      }
    }

    method Issue(path: string, holder: string, leaseSec: int, now: int) returns (r: IssueResult)
      modifies this
      ensures Contents() == AfterIssue(old(Contents()), path, holder, leaseSec, now)
      ensures r == if Issuable(path, holder, leaseSec)
                   then Issued(Token(path, old(NextSequence(Contents(), path)))) else NotIssued
    {
      if path == "" || holder == "" || leaseSec <= 0 {
        return NotIssued;
      }
      var sequence := TakeSequence(path);
      var token := Token(path, sequence);
      tokens := tokens[token := TokenRow(holder, now, now + leaseSec * SECOND, false)];
      r := Issued(token);
    }

    method Revoke(token: Token) returns (found: bool)
      modifies this`tokens
      ensures Contents() == AfterRevoke(old(Contents()), token)
      ensures found <==> token in old(tokens)
    {
      if token !in tokens {
        return false;
      }
      if !tokens[token].revoked {
        tokens := tokens[token := tokens[token].(revoked := true)];
      }
      found := true;
    }
  }

  // ---------------------------------------------------------------- every run

  datatype TokenOp =
    | IssueOp(path: string, holder: string, leaseSec: int, now: int)
    | RevokeOp(token: Token)

  function TokenStep(s: Store, op: TokenOp): Store {
    match op
    case IssueOp(path, holder, leaseSec, now) => AfterIssue(s, path, holder, leaseSec, now)
    case RevokeOp(token) => AfterRevoke(s, token)
  }

  function TokenRun(s: Store, ops: seq<TokenOp>): Store
    decreases |ops|
  {
    if ops == [] then s else TokenRun(TokenStep(s, ops[0]), ops[1..])
  }

  lemma StepKeepsStore(s: Store, op: TokenOp)
    requires StoreOk(s)
    ensures StoreOk(TokenStep(s, op))
    ensures forall p :: CurrentSequence(s, p) <= CurrentSequence(TokenStep(s, op), p)
    ensures forall t | t in s.tokens :: t in TokenStep(s, op).tokens && TokenStep(s, op).tokens[t].holder == s.tokens[t].holder
    ensures forall t | t in s.tokens && s.tokens[t].revoked :: TokenStep(s, op).tokens[t].revoked
  {
    if op.IssueOp? && Issuable(op.path, op.holder, op.leaseSec) {
      assert Token(op.path, NextSequence(s, op.path)) !in s.tokens;
    }
  }

  /** A new token outranks every token its resource has had, and is the one that validates. */
  lemma NewTokenOutranks(s: Store, path: string, holder: string, leaseSec: int, now: int)
    requires StoreOk(s) && Issuable(path, holder, leaseSec)
    ensures var t := Token(path, NextSequence(s, path));
            var s' := AfterIssue(s, path, holder, leaseSec, now);
            && t !in s.tokens
            && Validate(s', t, path, holder, now) == TokenValid
            && t.sequence == CurrentSequence(s', path)
            && forall u | u in s.tokens && u.path == path ::
                 u.sequence < t.sequence && Validate(s', u, path, s'.tokens[u].holder, now) == TokenStale
  {
    assert now + leaseSec * SECOND > now;
  }

  /** At most one token of a resource validates, whoever asks and whenever. */
  lemma AtMostOneValid(s: Store, path: string, t: Token, holder: string, now: int,
                       t': Token, holder': string, now': int)
    requires StoreOk(s)
    requires Validate(s, t, path, holder, now) == TokenValid
    requires Validate(s, t', path, holder', now') == TokenValid
    ensures t == t' && holder == holder' && t.sequence == CurrentSequence(s, path)
  {
    assert 1 <= t.sequence < NextSequence(s, path) && 1 <= t'.sequence < NextSequence(s, path);
  }

  /** Once a token is stale or revoked, no later state accepts it, for anyone, at any time. */
  lemma {:induction false} StaleForever(s: Store, ops: seq<TokenOp>, t: Token)
    requires StoreOk(s) && t in s.tokens
    requires t.sequence < CurrentSequence(s, t.path) || s.tokens[t].revoked
    ensures forall path, holder, now :: Validate(TokenRun(s, ops), t, path, holder, now) != TokenValid
    ensures StoreOk(TokenRun(s, ops))
    decreases |ops|
  {
    if ops != [] {
      StepKeepsStore(s, ops[0]);
      StaleForever(TokenStep(s, ops[0]), ops[1..], t);
    }
  }

  /** The newest sequence of every resource belongs to a token in the table. */
  ghost predicate NewestKnown(s: Store) {
    StoreOk(s) && forall p | p in s.counters :: Token(p, s.counters[p] - 1) in s.tokens
  }

  lemma StepNewest(s: Store, op: TokenOp)
    requires NewestKnown(s)
    ensures NewestKnown(TokenStep(s, op))
  {
    hide StoreOk, AfterIssue, AfterRevoke;
    StepKeepsStore(s, op);
    match op
    case IssueOp(path, holder, leaseSec, now) => IssueNewest(s, path, holder, leaseSec, now);
    case RevokeOp(token) => RevokeNewest(s, token);
  }

  lemma RevokeNewest(s: Store, token: Token)
    ensures AfterRevoke(s, token).counters == s.counters && AfterRevoke(s, token).tokens.Keys == s.tokens.Keys
  {
  }

  lemma IssueNewest(s: Store, path: string, holder: string, leaseSec: int, now: int)
    requires NewestKnown(s)
    ensures var t := AfterIssue(s, path, holder, leaseSec, now); forall p | p in t.counters :: Token(p, t.counters[p] - 1) in t.tokens
  {
    var t := AfterIssue(s, path, holder, leaseSec, now);
    forall p | p in t.counters ensures Token(p, t.counters[p] - 1) in t.tokens {
      if p != path && p in s.counters {
        assert Token(p, s.counters[p] - 1) in s.tokens;
      }
    }
  }

  lemma {:induction false} ReachableNewest(s: Store, ops: seq<TokenOp>)
    requires NewestKnown(s)
    ensures NewestKnown(TokenRun(s, ops))
    decreases |ops|
  {
    hide NewestKnown, TokenStep;
    if ops != [] {
      StepNewest(s, ops[0]);
      ReachableNewest(TokenStep(s, ops[0]), ops[1..]);
    }
  }

  /** In every store reached from the empty one: a token that its holder shows for its resource is stale
      exactly if a newer one has been issued for it, and otherwise valid exactly if nobody has revoked it
      and its time is not over. */
  lemma VerdictExact(ops: seq<TokenOp>, token: Token, path: string, holder: string, now: int)
    ensures var s := TokenRun(Store(map[], map[]), ops);
            var v := Validate(s, token, path, holder, now);
            var own := token in s.tokens && token.path == path && s.tokens[token].holder == holder;
            var newer := exists u :: u in s.tokens && u.path == path && u.sequence > token.sequence;
            && (v == TokenNotFound <==> token !in s.tokens)
            && (v == TokenMismatch <==> token in s.tokens && !own)
            && (v == TokenStale <==> own && newer)
            && (v == TokenRevoked <==> own && !newer && s.tokens[token].revoked)
            && (v == TokenExpired <==> own && !newer && !s.tokens[token].revoked && s.tokens[token].expiresAt <= now)
            && (v == TokenValid <==> own && !newer && !s.tokens[token].revoked && now < s.tokens[token].expiresAt)
  {
    ReachableNewest(Store(map[], map[]), ops);
    var s := TokenRun(Store(map[], map[]), ops);
    if token in s.tokens && token.path == path {
      assert 1 <= token.sequence < NextSequence(s, path);
      var last := Token(path, s.counters[path] - 1);
      assert last in s.tokens;
      assert forall u | u in s.tokens && u.path == path :: u.sequence <= last.sequence;
    }
  }

  /** Revoking a token ends it for good, and says nothing about any other. */
  lemma RevokedForGood(s: Store, token: Token, ops: seq<TokenOp>, other: Token, path: string, holder: string, now: int)
    requires StoreOk(s)
    ensures token in s.tokens ==> Validate(TokenRun(AfterRevoke(s, token), ops), token, path, holder, now) != TokenValid
    ensures other != token ==>
              Validate(AfterRevoke(s, token), other, path, holder, now) == Validate(s, other, path, holder, now)
  {
    StepKeepsStore(s, RevokeOp(token));
    if token in s.tokens {
      StaleForever(AfterRevoke(s, token), ops, token);
    }
  }

  /** A token that nobody revokes and that stays the newest of its resource is good for exactly the
      time of its lease. */
  lemma {:induction false} GoodForItsLease(s: Store, path: string, holder: string, leaseSec: int, now: int,
                                           ops: seq<TokenOp>, at: int)
    requires StoreOk(s) && path != "" && holder != "" && leaseSec > 0
    requires forall op | op in ops :: !(op.IssueOp? && op.path == path) && op != RevokeOp(Token(path, NextSequence(s, path)))
    ensures var t := TokenRun(AfterIssue(s, path, holder, leaseSec, now), ops);
            Validate(t, Token(path, NextSequence(s, path)), path, holder, at)
            == if at < now + leaseSec * SECOND then TokenValid else TokenExpired
  {
    StepKeepsStore(s, IssueOp(path, holder, leaseSec, now));
    RowUndisturbed(AfterIssue(s, path, holder, leaseSec, now), Token(path, NextSequence(s, path)), ops);
  }

  lemma {:induction false} RowUndisturbed(s: Store, token: Token, ops: seq<TokenOp>)
    requires StoreOk(s) && token in s.tokens
    requires forall op | op in ops :: !(op.IssueOp? && op.path == token.path) && op != RevokeOp(token)
    ensures var t := TokenRun(s, ops);
            && token in t.tokens && t.tokens[token] == s.tokens[token]
            && CurrentSequence(t, token.path) == CurrentSequence(s, token.path)
    decreases |ops|
  {
    if ops != [] {
      assert ops[0] in ops;
      StepKeepsStore(s, ops[0]);
      RowUndisturbed(TokenStep(s, ops[0]), token, ops[1..]);
    }
  }
}

/**
 Per-agent credentials (store/agenttoken.go, receiver/grpc.go). The hash is a
 parameter; that it has no collisions and that issued tokens are fresh are
 stated as premises where they are used.
 */
module AgentTokens {
  import opened Bytes
  import opened Options
  import opened StoreScan
  import opened TimeKeys

  type Time = int
  type Hash = Key -> Key

  datatype AgentToken = AgentToken(nodeID: Key, tokenHash: Key, issuedAt: Time, revokedAt: Option<Time>)

  type Records = map<Key, AgentToken>

  /** An operator command; `stored` is whether the store accepted the write. */
  datatype Op =
    | Issue(nodeID: Key, token: Key, now: Time, stored: bool)
    | Revoke(nodeID: Key, now: Time, stored: bool)

  datatype IssueResult = Token(token: Key) | TokenExists | StoreError

  predicate ActiveIn(recs: Records, nodeID: Key) {
    nodeID in recs && recs[nodeID].revokedAt.None?
  }

  function Apply(hash: Hash, recs: Records, op: Op): Records {
    match op
    case Issue(n, token, now, stored) =>
      if ActiveIn(recs, n) || !stored then recs else recs[n := AgentToken(n, hash(token), now, None)]
    case Revoke(n, now, stored) =>
      if ActiveIn(recs, n) && stored then recs[n := recs[n].(revokedAt := Some(now))] else recs
  }

  function Exec(hash: Hash, ops: seq<Op>): Records {
    if ops == [] then map[] else Apply(hash, Exec(hash, ops[..|ops| - 1]), ops[|ops| - 1])
  }

  class TokenStore {
    const hash: Hash
    var recs: Records

    constructor (hash: Hash)
      ensures recs == map[] && this.hash == hash
    {
      this.hash := hash;
      recs := map[];
    }

    /** `token` is the freshly generated token, `stored` the outcome of the write. */
    method IssueToken(nodeID: Key, token: Key, now: Time, stored: bool) returns (r: IssueResult)
      modifies this
      ensures recs == Apply(hash, old(recs), Issue(nodeID, token, now, stored))
      ensures r == if ActiveIn(old(recs), nodeID) then TokenExists else if stored then Token(token) else StoreError
    {
      if nodeID in recs && recs[nodeID].revokedAt == None {
        return TokenExists;
      }
      if !stored {
        return StoreError;
      }
      recs := recs[nodeID := AgentToken(nodeID, hash(token), now, None)];
      return Token(token);
    }

    method RevokeToken(nodeID: Key, now: Time, stored: bool) returns (ok: bool)
      modifies this
      ensures recs == Apply(hash, old(recs), Revoke(nodeID, now, stored))
      ensures ok <==> !ActiveIn(old(recs), nodeID) || stored
    {
      if nodeID !in recs || recs[nodeID].revokedAt != None {
        return true;
      }
      if !stored {
        return false;
      }
      recs := recs[nodeID := recs[nodeID].(revokedAt := Some(now))];
      return true;
    }

    /** The forward scan of the token prefix: every record, by node id, ascending. */
    method ListTokens() returns (tokens: seq<AgentToken>)
      ensures tokens == Values(recs, Ascended(recs.Keys))
    {
      forall n
        ensures NodeOf(TokenKey(n)) == n
      {
        NodeOfTokenKey(n);
      }
      var db := map n | n in recs :: TokenKey(n) := recs[n];
      var failed;
      tokens, failed := ListForward(db, TOKEN, (rec: AgentToken) => Some(rec));
      ghost var keys := Ascended(Under(db.Keys, TOKEN));
      AllDecode(Values(db, keys));
      NodesAscend(recs.Keys, db.Keys, keys);
      ValuesByNode(recs, db, keys);
    }

    /** The loop over the listed records; a later match replaces an earlier one. */
    method LookupNodeID(token: Key) returns (found: Option<Key>)
      ensures Resolves(hash, recs, token, found)
    {
      found := None;
      var want := hash(token);
      var tokens := ListTokens();
      ghost var nodes := Ascended(recs.Keys);
      for i := 0 to |tokens|
        invariant found.Some? ==>
          exists n :: n in recs && Matches(hash, recs[n], token) && recs[n].nodeID == found.value
        invariant found.None? ==> forall j :: 0 <= j < i ==> !Matches(hash, tokens[j], token)
      {
        if tokens[i].revokedAt != None {
          continue;
        }
        if tokens[i].tokenHash == want {
          assert nodes[i] in recs && Matches(hash, recs[nodes[i]], token);
          found := Some(tokens[i].nodeID);
        }
      }
      if found.None? {
        forall n <- recs
          ensures !Matches(hash, recs[n], token)
        {
          var j :| 0 <= j < |nodes| && nodes[j] == n;
          assert tokens[j] == recs[n];
        }
      }
    }
  }

  lemma {:induction false} AllDecode(vs: seq<AgentToken>)
    ensures Decoded(vs, (rec: AgentToken) => Some(rec)) == vs
  {
    if vs != [] {
      AllDecode(vs[1..]);
      assert vs == [vs[0]] + vs[1..];
    }
  }

  lemma ValuesByNode(recs: Records, db: map<Key, AgentToken>, keys: seq<Key>)
    requires forall k <- keys :: k in db
    requires forall n <- recs :: TokenKey(n) in db && db[TokenKey(n)] == recs[n]
    requires |keys| == |Ascended(recs.Keys)|
    requires forall i :: 0 <= i < |keys| ==> keys[i] == TokenKey(Ascended(recs.Keys)[i])
    ensures Values(db, keys) == Values(recs, Ascended(recs.Keys))
  {
    var nodes := Ascended(recs.Keys);
    forall i | 0 <= i < |keys|
      ensures Values(db, keys)[i] == Values(recs, nodes)[i]
    {
      assert nodes[i] in nodes;
    }
  }

  function NodeOf(key: Key): Key {
    if |TOKEN| <= |key| then key[|TOKEN|..] else []
  }

  lemma NodeOfTokenKey(n: Key)
    ensures NodeOf(TokenKey(n)) == n && TOKEN <= TokenKey(n)
  {
  }

  /** Token keys in ascending order name their nodes in ascending order. */
  lemma NodesAscend(nodeIDs: set<Key>, all: set<Key>, keys: seq<Key>)
    requires forall k :: k in all <==> exists n :: n in nodeIDs && k == TokenKey(n)
    requires Ascending(Under(all, TOKEN), keys)
    ensures |keys| == |Ascended(nodeIDs)| && forall i :: 0 <= i < |keys| ==> keys[i] == TokenKey(Ascended(nodeIDs)[i])
  {
    var nodes := seq(|keys|, i requires 0 <= i < |keys| => NodeOf(keys[i]));
    forall i | 0 <= i < |keys|
      ensures keys[i] == TokenKey(nodes[i]) && nodes[i] in nodeIDs
    {
      assert keys[i] in keys;
      var n :| n in nodeIDs && keys[i] == TokenKey(n);
      NodeOfTokenKey(n);
    }
    forall n | n in nodeIDs
      ensures n in nodes
    {
      NodeOfTokenKey(n);
      assert TokenKey(n) in Under(all, TOKEN);
      var i :| 0 <= i < |keys| && keys[i] == TokenKey(n);
      assert nodes[i] == n;
    }
    forall i, j | 0 <= i < j < |nodes|
      ensures Less(nodes[i], nodes[j])
    {
      LessAfter(TOKEN, nodes[i], nodes[j]);
    }
    AscendingUnique(nodeIDs, nodes, Ascended(nodeIDs));
  }

  predicate Matches(hash: Hash, rec: AgentToken, token: Key) {
    rec.revokedAt.None? && rec.tokenHash == hash(token)
  }

  ghost predicate Resolves(hash: Hash, recs: Records, token: Key, found: Option<Key>) {
    match found
    case None => forall n :: n in recs ==> !Matches(hash, recs[n], token)
    case Some(id) => exists n :: n in recs && Matches(hash, recs[n], token) && recs[n].nodeID == id
  }

  // ----- the life of a token

  /** Command i issued a token for n: the node had no active token and the record was stored. */
  ghost predicate Issued(hash: Hash, ops: seq<Op>, i: nat, n: Key)
    requires i < |ops|
  {
    ops[i].Issue? && ops[i].nodeID == n && ops[i].stored && !ActiveIn(Exec(hash, ops[..i]), n)
  }

  predicate Revokes(op: Op, n: Key) {
    op.Revoke? && op.nodeID == n && op.stored
  }

  /** Command i is the latest successful issue for n. */
  ghost predicate LatestIssue(hash: Hash, ops: seq<Op>, i: nat, n: Key) {
    && i < |ops| && Issued(hash, ops, i, n)
    && forall j: nat :: i < j < |ops| ==> !Issued(hash, ops, j, n)
  }

  ghost predicate RevokedSince(ops: seq<Op>, i: nat, n: Key) {
    exists j :: i < j < |ops| && Revokes(ops[j], n)
  }

  /** The first revocation of n after command i was made at this time. */
  ghost predicate FirstRevokedAt(ops: seq<Op>, i: nat, n: Key, at: Time) {
    exists j :: i < j < |ops| && Revokes(ops[j], n) && ops[j].now == at && forall k :: i < k < j ==> !Revokes(ops[k], n)
  }

  /** The token came from the latest successful issue for n, and n has not been revoked since. */
  ghost predicate Current(hash: Hash, ops: seq<Op>, token: Key, n: Key) {
    exists i: nat :: LatestIssue(hash, ops, i, n) && ops[i].token == token && !RevokedSince(ops, i, n)
  }

  ghost predicate CollisionFree(hash: Hash) {
    forall a, b :: hash(a) == hash(b) ==> a == b
  }

  ghost predicate FreshTokens(ops: seq<Op>) {
    forall i, j :: 0 <= i < j < |ops| && ops[i].Issue? && ops[j].Issue? ==> ops[i].token != ops[j].token
  }

  lemma IssuedPrefix(hash: Hash, ops: seq<Op>, k: nat, i: nat, n: Key)
    requires i < k <= |ops|
    ensures Issued(hash, ops[..k], i, n) <==> Issued(hash, ops, i, n)
  {
    assert ops[..k][..i] == ops[..i];
  }

  lemma LatestExtends(hash: Hash, ops: seq<Op>, i: nat, n: Key)
    requires ops != [] && LatestIssue(hash, ops[..|ops| - 1], i, n) && !Issued(hash, ops, |ops| - 1, n)
    ensures LatestIssue(hash, ops, i, n)
    ensures RevokedSince(ops, i, n) <==> RevokedSince(ops[..|ops| - 1], i, n) || Revokes(ops[|ops| - 1], n)
  {
    var k := |ops| - 1;
    IssuedPrefix(hash, ops, k, i, n);
    forall j: nat | i < j < k
      ensures !Issued(hash, ops, j, n)
    {
      IssuedPrefix(hash, ops, k, j, n);
    }
    if RevokedSince(ops[..k], i, n) {
      var j :| i < j < k && Revokes(ops[..k][j], n);
      assert Revokes(ops[j], n);
    }
    if RevokedSince(ops, i, n) {
      var j :| i < j < |ops| && Revokes(ops[j], n);
      assert j < k ==> Revokes(ops[..k][j], n);
    }
  }

  /** The record of n after the issue i and whatever revocations followed. */
  ghost predicate Holds(hash: Hash, ops: seq<Op>, i: nat, n: Key, rec: AgentToken) {
    && i < |ops| && ops[i].Issue?
    && rec.nodeID == n && rec.tokenHash == hash(ops[i].token) && rec.issuedAt == ops[i].now
    && (rec.revokedAt.None? <==> !RevokedSince(ops, i, n))
    && (rec.revokedAt.Some? ==> FirstRevokedAt(ops, i, n, rec.revokedAt.value))
  }

  /** A record holds the latest issue for its node and says whether and when it was revoked since. */
  lemma {:induction false} RecordOrigin(hash: Hash, ops: seq<Op>, n: Key) returns (i: nat)
    requires n in Exec(hash, ops)
    ensures LatestIssue(hash, ops, i, n) && Holds(hash, ops, i, n, Exec(hash, ops)[n])
  {
    var k := |ops| - 1;
    if Issued(hash, ops, k, n) {
      i := k;
    } else {
      i := RecordOrigin(hash, ops[..k], n);
      LatestExtends(hash, ops, i, n);
      HoldsOn(hash, ops, i, n, Exec(hash, ops[..k])[n], Exec(hash, ops)[n]);
    }
  }

  lemma HoldsOn(hash: Hash, ops: seq<Op>, i: nat, n: Key, rec: AgentToken, rec': AgentToken)
    requires ops != [] && Holds(hash, ops[..|ops| - 1], i, n, rec)
    requires RevokedSince(ops, i, n) <==> RevokedSince(ops[..|ops| - 1], i, n) || Revokes(ops[|ops| - 1], n)
    requires var op := ops[|ops| - 1];
      rec' == if rec.revokedAt.None? && Revokes(op, n) then rec.(revokedAt := Some(op.now)) else rec
    ensures Holds(hash, ops, i, n, rec')
  {
    var k := |ops| - 1;
    if rec.revokedAt.Some? {
      RevokedStays(ops, i, n, rec.revokedAt.value);
    } else if Revokes(ops[k], n) {
      assert forall j :: i < j < k ==> !Revokes(ops[..k][j], n);
    }
  }

  lemma RevokedStays(ops: seq<Op>, i: nat, n: Key, at: Time)
    requires ops != [] && FirstRevokedAt(ops[..|ops| - 1], i, n, at)
    ensures FirstRevokedAt(ops, i, n, at)
  {
    var before := ops[..|ops| - 1];
    var j :| i < j < |before| && Revokes(before[j], n) && before[j].now == at
      && forall k :: i < k < j ==> !Revokes(before[k], n);
    assert forall k :: i < k <= j ==> ops[k] == before[k];
  }

  lemma {:induction false} IssueLeavesRecord(hash: Hash, ops: seq<Op>, i: nat, n: Key)
    requires i < |ops| && Issued(hash, ops, i, n)
    ensures n in Exec(hash, ops)
  {
    var k := |ops| - 1;
    if i < k {
      IssuedPrefix(hash, ops, k, i, n);
      IssueLeavesRecord(hash, ops[..k], i, n);
    }
  }

  /** Lookup after any sequence of commands: exact in both directions. */
  lemma LookupIsExact(hash: Hash, ops: seq<Op>, token: Key, found: Option<Key>, n: Key)
    requires CollisionFree(hash) && FreshTokens(ops)
    requires Resolves(hash, Exec(hash, ops), token, found)
    ensures found == Some(n) <==> Current(hash, ops, token, n)
  {
    var recs := Exec(hash, ops);
    if found == Some(n) {
      var m :| m in recs && Matches(hash, recs[m], token) && recs[m].nodeID == n;
      var i := RecordOrigin(hash, ops, m);
      assert LatestIssue(hash, ops, i, n) && ops[i].token == token;
    }
    if Current(hash, ops, token, n) {
      var i: nat :| LatestIssue(hash, ops, i, n) && ops[i].token == token && !RevokedSince(ops, i, n);
      IssueLeavesRecord(hash, ops, i, n);
      var j := RecordOrigin(hash, ops, n);
      assert i == j;
      assert Matches(hash, recs[n], token);
      var m :| m in recs && Matches(hash, recs[m], token) && recs[m].nodeID == found.value;
      var l := RecordOrigin(hash, ops, m);
      assert ops[l].token == ops[i].token;
    }
  }

  // ----- authenticating a stream

  datatype Auth = Disabled | Authenticated(nodeID: Key) | Unauthenticated | LookupFailed

  const BEARER: Key := ['B' as int, 'e' as int, 'a' as int, 'r' as int, 'e' as int, 'r' as int, ' ' as int]

  /** The first authorization value is a bearer token. */
  predicate Bearer(header: Option<seq<Key>>) {
    header.Some? && header.value != [] && BEARER <= header.value[0]
  }

  function TokenOf(header: Option<seq<Key>>): Key
    requires Bearer(header)
  {
    header.value[0][|BEARER|..]
  }

  /**
   checkAuth: `header` lists the authorization metadata values, if there is
   metadata at all; `readable` is whether the records could be listed.
   */
  method CheckAuth(store: TokenStore, authEnabled: bool, header: Option<seq<Key>>, readable: bool) returns (r: Auth)
    ensures r.Disabled? <==> !authEnabled
    ensures r.LookupFailed? <==> authEnabled && Bearer(header) && !readable
    ensures r.Authenticated? ==>
      authEnabled && Bearer(header) && readable && Resolves(store.hash, store.recs, TokenOf(header), Some(r.nodeID))
    ensures r.Unauthenticated? ==>
      authEnabled && (Bearer(header) ==> readable && Resolves(store.hash, store.recs, TokenOf(header), None))
  {
    if !authEnabled {
      return Disabled;
    }
    if header.None? {
      return Unauthenticated;
    }
    var values := header.value;
    if |values| == 0 || !(BEARER <= values[0]) {
      return Unauthenticated;
    }
    if !readable {
      return LookupFailed;
    }
    var found := store.LookupNodeID(values[0][|BEARER|..]);
    return if found.Some? then Authenticated(found.value) else Unauthenticated;
  }
}

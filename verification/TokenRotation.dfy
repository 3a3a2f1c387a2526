/** Tunnel tokens: kept in the cache under the tunnel's id, and under id:old for a while after a
    rotation. Hashing is a parameter of the caller; expiry of a token is read from the wall clock, expiry
    of a cache entry from the steady one. */
module TokenRotation {
  import opened Wrappers
  import opened Text
  import opened TtlCache

  datatype AuthToken = AuthToken(hash: string, expiresAt: int)

  /** Ninety days in nanoseconds. */
  const TOKEN_TTL := 90 * 24 * 3600 * 1_000_000_000

  type Entries = map<string, Entry<AuthToken>>

  function OldKey(id: string): string {
    id + ":old"
  }

  /** A cached token of that hash that neither clock has expired. */
  predicate Accepts(entries: Entries, key: string, hash: string, now: int, wall: int) {
    var token := Get(entries, key, now);
    token.Some? && token.value.hash == hash && wall < token.value.expiresAt
  }

  function Rotated(entries: Entries, id: string, token: AuthToken, grace: int, now: int): Entries {
    var previous := Get(entries, id, now);
    var installed := entries[id := Entry(token, now + TOKEN_TTL)];
    if previous.Some? then installed[OldKey(id) := Entry(previous.value, now + grace)] else installed
  }

  class TokenValidator {
    const cache: Cache<string, AuthToken>

    constructor (c: Cache<string, AuthToken>)
      ensures cache == c
    {
      cache := c;
    }

    method AddToken(id: string, token: AuthToken, ttl: int, now: int)
      modifies cache
      ensures cache.entries == old(cache.entries)[id := Entry(token, now + ttl)]
    {
      cache.PutFor(id, token, ttl, now);
    }

    method RevokeToken(id: string)
      modifies cache
      ensures cache.entries == old(cache.entries) - {id}
    {
      var _ := cache.Remove(id);
    }

    method RotateToken(id: string, token: AuthToken, grace: int, now: int)
      modifies cache
      ensures cache.entries == Rotated(old(cache.entries), id, token, grace, now)
    {
      var previous := cache.Lookup(id, now);
      AddToken(id, token, TOKEN_TTL, now);
      if previous.Some? {
        cache.PutFor(id + ":old", previous.value, grace, now);
      }
    }

    /** The last matching key visited, in an order that is not determined. */
    method ValidateToken(hash: string, now: int, wall: int) returns (matched: Option<string>)
      ensures matched.Some? ==> Accepts(cache.entries, matched.value, hash, now, wall)
      ensures matched.None? ==> forall key :: !Accepts(cache.entries, key, hash, now, wall)
    {
      var visited := cache.ForEach(now);
      matched := None;
      var i := 0;
      while i < |visited|
        invariant 0 <= i <= |visited|
        invariant matched.Some? ==> Accepts(cache.entries, matched.value, hash, now, wall)
        invariant matched.None? ==> forall k :: 0 <= k < i ==> !Accepts(cache.entries, visited[k].0, hash, now, wall)
      {
        var (key, token) := visited[i];
        assert Get(cache.entries, key, now) == Some(token);
        if token.hash == hash {
          if wall < token.expiresAt {
            matched := Some(key);
          }
        }
        i := i + 1;
      }
      assert forall key :: Accepts(cache.entries, key, hash, now, wall) ==> key in Live(cache.entries, now);
    }
  }

  // ----- runs -----

  datatype Op =
    | Add(id: string, token: AuthToken, ttl: int, now: int)
    | Revoke(id: string, now: int)
    | Rotate(id: string, token: AuthToken, grace: int, now: int)
    | Cleanup(now: int)

  function AfterOp(entries: Entries, op: Op): Entries {
    match op
    case Add(id, token, ttl, now) => entries[id := Entry(token, now + ttl)]
    case Revoke(id, _) => entries - {id}
    case Rotate(id, token, grace, now) => Rotated(entries, id, token, grace, now)
    case Cleanup(now) => CleanedUp(entries, now)
  }

  function RunOps(ops: seq<Op>): Entries {
    if ops == [] then map[] else AfterOp(RunOps(ops[..|ops| - 1]), ops[|ops| - 1])
  }

  predicate Ordered(ops: seq<Op>, now: int) {
    ops == [] || (ops[|ops| - 1].now <= now && Ordered(ops[..|ops| - 1], ops[|ops| - 1].now))
  }

  /** Tunnel ids as the interface admits them: without colons. */
  predicate NoColon(id: string) {
    Avoids(id, {':'})
  }

  predicate NoColons(ops: seq<Op>) {
    forall i :: 0 <= i < |ops| ==> ops[i].Cleanup? || NoColon(ops[i].id)
  }

  /** The token last installed for a tunnel and not revoked since. */
  function Installed(ops: seq<Op>, id: string): Option<Entry<AuthToken>> {
    if ops == [] then None
    else
      var before := Installed(ops[..|ops| - 1], id);
      match ops[|ops| - 1]
      case Add(k, token, ttl, now) => if k == id then Some(Entry(token, now + ttl)) else before
      case Rotate(k, token, grace, now) => if k == id then Some(Entry(token, now + TOKEN_TTL)) else before
      case Revoke(k, _) => if k == id then None else before
      case Cleanup(_) => before
  }

  /** The token replaced by the tunnel's last rotation that found one, kept for that rotation's grace
      period. */
  function Replaced(ops: seq<Op>, id: string): Option<Entry<AuthToken>> {
    if ops == [] then None
    else
      var front, op := ops[..|ops| - 1], ops[|ops| - 1];
      var found := if op.Rotate? && op.id == id then Unexpired(Installed(front, id), op.now) else None;
      if found.Some? then Some(Entry(found.value, op.now + op.grace)) else Replaced(front, id)
  }

  lemma KeysApart(id: string, other: string)
    requires NoColon(id) && NoColon(other)
    ensures OldKey(id) != other && (OldKey(id) == OldKey(other) <==> id == other)
  {
    assert OldKey(id)[|id|] == ':';
    assert |OldKey(id)| == |id| + 4 && |OldKey(other)| == |other| + 4;
    if OldKey(id) == OldKey(other) {
      assert id == OldKey(id)[..|id|] && other == OldKey(other)[..|other|];
    }
  }

  /** An entry as it may stand in the cache: present, or gone once expired. */
  ghost predicate Stands(entries: Entries, key: string, e: Option<Entry<AuthToken>>, now: int) {
    && (key in entries ==> e == Some(entries[key]))
    && (key !in entries && e.Some? ==> Expired(e.value, now))
  }

  lemma StandsMeansGet(entries: Entries, key: string, e: Option<Entry<AuthToken>>, now: int)
    requires Stands(entries, key, e, now)
    ensures Get(entries, key, now) == Unexpired(e, now)
  {
  }

  lemma CleanupStands(entries: Entries, key: string, e: Option<Entry<AuthToken>>, earlier: int, now: int)
    requires Stands(entries, key, e, earlier) && earlier <= now
    ensures Stands(entries, key, e, now) && Stands(CleanedUp(entries, now), key, e, now)
  {
  }

  lemma StepStands(entries: Entries, op: Op, id: string,
                   installed: Option<Entry<AuthToken>>, replaced: Option<Entry<AuthToken>>)
    requires NoColon(id) && (op.Cleanup? || NoColon(op.id))
    requires Stands(entries, id, installed, op.now) && Stands(entries, OldKey(id), replaced, op.now)
    ensures op.Rotate? && op.id == id ==>
              (var found := Unexpired(installed, op.now);
               && Stands(AfterOp(entries, op), id, Some(Entry(op.token, op.now + TOKEN_TTL)), op.now)
               && Stands(AfterOp(entries, op), OldKey(id),
                         if found.Some? then Some(Entry(found.value, op.now + op.grace)) else replaced, op.now))
    ensures op.Add? && op.id == id ==>
              Stands(AfterOp(entries, op), id, Some(Entry(op.token, op.now + op.ttl)), op.now)
    ensures op.Revoke? && op.id == id ==> Stands(AfterOp(entries, op), id, None, op.now)
    ensures op.Cleanup? || op.id != id ==> Stands(AfterOp(entries, op), id, installed, op.now)
    ensures !(op.Rotate? && op.id == id) ==> Stands(AfterOp(entries, op), OldKey(id), replaced, op.now)
  {
    StandsMeansGet(entries, id, installed, op.now);
    if op.Cleanup? {
      CleanupStands(entries, id, installed, op.now, op.now);
      CleanupStands(entries, OldKey(id), replaced, op.now, op.now);
    } else {
      KeysApart(id, op.id);
      KeysApart(op.id, id);
    }
    hide OldKey, NoColon;
  }

  lemma {:induction false} SlotsStand(ops: seq<Op>, id: string, now: int)
    requires Ordered(ops, now) && NoColons(ops) && NoColon(id)
    ensures Stands(RunOps(ops), id, Installed(ops, id), now)
    ensures Stands(RunOps(ops), OldKey(id), Replaced(ops, id), now)
  {
    if ops != [] {
      hide AfterOp, NoColon, Stands, OldKey;
      var front, op := ops[..|ops| - 1], ops[|ops| - 1];
      assert ops[|ops| - 1] == op && (op.Cleanup? || NoColon(op.id));
      SlotsStand(front, id, op.now);
      StepStands(RunOps(front), op, id, Installed(front, id), Replaced(front, id));
      CleanupStands(RunOps(ops), id, Installed(ops, id), op.now, now);
      CleanupStands(RunOps(ops), OldKey(id), Replaced(ops, id), op.now, now);
    }
  }

  predicate Good(e: Option<Entry<AuthToken>>, hash: string, now: int, wall: int) {
    Unexpired(e, now).Some? && e.value.value.hash == hash && wall < e.value.value.expiresAt
  }

  /** At every moment of every run, the tokens accepted for a tunnel are the one last installed and the
      one its last rotation replaced, less than that rotation's grace period ago: at most these two. */
  lemma AcceptsTwoTokens(ops: seq<Op>, id: string, hash: string, now: int, wall: int)
    requires Ordered(ops, now) && NoColons(ops) && NoColon(id)
    ensures Accepts(RunOps(ops), id, hash, now, wall) <==> Good(Installed(ops, id), hash, now, wall)
    ensures Accepts(RunOps(ops), OldKey(id), hash, now, wall) <==> Good(Replaced(ops, id), hash, now, wall)
  {
    hide RunOps, Installed, Replaced, OldKey, Stands, Get;
    SlotsStand(ops, id, now);
    StandsMeansGet(RunOps(ops), id, Installed(ops, id), now);
    StandsMeansGet(RunOps(ops), OldKey(id), Replaced(ops, id), now);
  }

  predicate Untouched(ops: seq<Op>, id: string) {
    forall i :: 0 <= i < |ops| ==> ops[i].Cleanup? || ops[i].id != id
  }

  lemma {:induction false} SlotsUntouched(ops: seq<Op>, later: seq<Op>, id: string)
    requires Untouched(later, id)
    ensures Installed(ops + later, id) == Installed(ops, id) && Replaced(ops + later, id) == Replaced(ops, id)
    decreases |later|
  {
    var all := ops + later;
    if later == [] {
      assert all == ops;
    } else {
      assert all[..|all| - 1] == ops + later[..|later| - 1] && all[|all| - 1] == later[|later| - 1];
      SlotsUntouched(ops, later[..|later| - 1], id);
    }
  }

  /** After a rotation that finds a token, and until something else happens to the tunnel, the new token
      and the replaced one are both accepted, the latter exactly for the grace period, each as long as
      it has not expired itself; nothing else is. */
  lemma RotationWindow(ops: seq<Op>, id: string, token: AuthToken, grace: int, at: int, later: seq<Op>,
                       hash: string, now: int, wall: int)
    requires Unexpired(Installed(ops, id), at).Some? && Untouched(later, id)
    requires var all := ops + [Rotate(id, token, grace, at)] + later;
             Ordered(all, now) && NoColons(all) && NoColon(id)
    ensures var all := ops + [Rotate(id, token, grace, at)] + later;
            var previous := Unexpired(Installed(ops, id), at).value;
            && (Accepts(RunOps(all), id, hash, now, wall) <==>
                  hash == token.hash && now < at + 7_776_000_000_000_000 && wall < token.expiresAt)
            && (Accepts(RunOps(all), OldKey(id), hash, now, wall) <==>
                  hash == previous.hash && now < at + grace && wall < previous.expiresAt)
  {
    hide RunOps, OldKey, Accepts, Ordered, NoColons, NoColon;
    var rotated := ops + [Rotate(id, token, grace, at)];
    assert rotated[..|rotated| - 1] == ops && rotated[|rotated| - 1] == Rotate(id, token, grace, at);
    AcceptsTwoTokens(rotated + later, id, hash, now, wall);
    SlotsUntouched(rotated, later, id);
  }

  // ----- validation finds at most one key -----

  function Hashes(ops: seq<Op>): set<string> {
    if ops == [] then {}
    else
      var before, op := Hashes(ops[..|ops| - 1]), ops[|ops| - 1];
      if op.Add? || op.Rotate? then before + {op.token.hash} else before
  }

  /** No two installed tokens have the same hash. */
  predicate DistinctTokens(ops: seq<Op>) {
    ops == [] ||
    (var front, op := ops[..|ops| - 1], ops[|ops| - 1];
     DistinctTokens(front) && (op.Add? || op.Rotate? ==> op.token.hash !in Hashes(front)))
  }

  ghost predicate OneKeyEach(entries: Entries, hashes: set<string>) {
    && (forall k :: k in entries ==> entries[k].value.hash in hashes)
    && (forall k, l :: k in entries && l in entries && entries[k].value.hash == entries[l].value.hash ==> k == l)
  }

  lemma OldKeyDiffers(id: string)
    ensures OldKey(id) != id
  {
    assert |OldKey(id)| == |id| + 4;
  }

  lemma StepKeepsOneKey(entries: Entries, op: Op, hashes: set<string>)
    requires OneKeyEach(entries, hashes) && (op.Add? || op.Rotate? ==> op.token.hash !in hashes)
    ensures OneKeyEach(AfterOp(entries, op), if op.Add? || op.Rotate? then hashes + {op.token.hash} else hashes)
  {
    if op.Rotate? { OldKeyDiffers(op.id); }
    hide OldKey;
  }

  lemma {:induction false} TokensHaveOneKey(ops: seq<Op>)
    requires DistinctTokens(ops)
    ensures OneKeyEach(RunOps(ops), Hashes(ops))
  {
    if ops != [] {
      hide AfterOp, OneKeyEach;
      TokensHaveOneKey(ops[..|ops| - 1]);
      StepKeepsOneKey(RunOps(ops[..|ops| - 1]), ops[|ops| - 1], Hashes(ops[..|ops| - 1]));
    }
  }

  /** With distinct tokens a presented token matches under one key at most, so the order in which the
      cache is visited never matters. */
  lemma ValidationIsUnique(ops: seq<Op>, key: string, other: string, hash: string, now: int, wall: int)
    requires DistinctTokens(ops)
    requires Accepts(RunOps(ops), key, hash, now, wall) && Accepts(RunOps(ops), other, hash, now, wall)
    ensures key == other
  {
    hide RunOps, Hashes, DistinctTokens;
    TokensHaveOneKey(ops);
  }

  /** Within the grace period, and until something else happens to the tunnel, a replaced token
      validates, but under the key with the suffix and no other. */
  lemma ReplacedTokenNamesOldKey(ops: seq<Op>, id: string, token: AuthToken, grace: int, at: int, later: seq<Op>,
                                 key: string, now: int, wall: int)
    requires Unexpired(Installed(ops, id), at).Some? && Untouched(later, id)
    requires var all := ops + [Rotate(id, token, grace, at)] + later;
             Ordered(all, now) && NoColons(all) && NoColon(id) && DistinctTokens(all)
    requires now < at + grace && wall < Unexpired(Installed(ops, id), at).value.expiresAt
    ensures var all := ops + [Rotate(id, token, grace, at)] + later;
            Accepts(RunOps(all), key, Unexpired(Installed(ops, id), at).value.hash, now, wall) <==> key == id + ":old"
    ensures id + ":old" != id
  {
    hide RunOps, Accepts, Ordered, NoColons, NoColon, DistinctTokens, Installed;
    var all := ops + [Rotate(id, token, grace, at)] + later;
    var previous := Unexpired(Installed(ops, id), at).value;
    RotationWindow(ops, id, token, grace, at, later, previous.hash, now, wall);
    OldKeyDiffers(id);
    if Accepts(RunOps(all), key, previous.hash, now, wall) {
      ValidationIsUnique(all, key, OldKey(id), previous.hash, now, wall);
    }
  }
}

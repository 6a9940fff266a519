/**
 * The token store of backend/src/auth.rs: a table from random nonzero `u64`
 * ids to the path and time each token was issued for. Issuing and checking a
 * token both start by dropping the entries that are no longer fresh.
 *
 * The monotonic clock (`Instant::now`) is a `nat` of nanoseconds passed in as
 * `now`; `rand::random` is a sequence of candidate ids passed in as `random`.
 */
module Auth {
  import opened Common

  /** One hour (`TOKEN_DURATION`), in nanoseconds. */
  const TokenDuration: nat := 60 * 60 * 1_000_000_000

  /** What the table records for one id. */
  datatype Token = Token(path: string, issuedAt: nat)

  /**
   * A token issued at `issuedAt` is still fresh at `now`: less than `ttl`
   * has elapsed since it was issued.
   *
   * The source (backend/src/auth.rs:52) computes `token.timestamp - now`,
   * issue time minus current time, the operands in the opposite order; that
   * `Instant` difference saturates at zero, so the check as written holds of
   * every token. `IsUpToDateAsWritten` models it; this predicate is the
   * intended test for a token issued no later than `now`. Unlike the
   * saturating `now - token.timestamp < older_than`, it also refuses a token
   * stamped after `now`.
   */
  predicate IsUpToDate(issuedAt: nat, now: nat, ttl: nat): (current: bool)
    ensures current <==> issuedAt <= now < issuedAt + ttl
    ensures ttl == 0 ==> !current
  {
    issuedAt <= now && now - issuedAt < ttl
  }

  /** `Instant - Instant`: the difference, or zero when it would be negative. */
  function SaturatingSub(a: nat, b: nat): nat {
    if a >= b then a - b else 0
  }

  /** The freshness test exactly as backend/src/auth.rs:52 writes it. */
  predicate IsUpToDateAsWritten(issuedAt: nat, now: nat, ttl: nat): (r: bool)
    ensures issuedAt <= now ==> (r <==> ttl > 0)
    ensures r <==> ttl > 0 && issuedAt < now + ttl
  {
    SaturatingSub(issuedAt, now) < ttl
  }

  /** `prune`: the table keeps exactly its fresh entries, unchanged. */
  function Pruned(tokens: map<uint64, Token>, now: nat): (live: map<uint64, Token>)
    ensures live.Keys <= tokens.Keys
    ensures forall id :: id in live ==> live[id] == tokens[id] && IsUpToDate(live[id].issuedAt, now, TokenDuration)
    ensures forall id :: id in tokens && IsUpToDate(tokens[id].issuedAt, now, TokenDuration) ==> id in live
  {
    map id | id in tokens && IsUpToDate(tokens[id].issuedAt, now, TokenDuration) :: tokens[id]
  }

  /** `prune` with the freshness test as written. */
  function PrunedAsWritten(tokens: map<uint64, Token>, now: nat): (live: map<uint64, Token>)
    ensures live.Keys <= tokens.Keys
    ensures forall id :: id in live ==> live[id] == tokens[id]
  {
    map id | id in tokens && IsUpToDateAsWritten(tokens[id].issuedAt, now, TokenDuration) :: tokens[id]
  }

  /** The answer `is_authorized(path, id)` gives at `now` on the table `tokens`. */
  predicate Authorized(tokens: map<uint64, Token>, path: string, id: uint64, now: nat): (ok: bool)
    ensures ok ==> id != 0 && id in tokens && tokens[id].path == path
  {
    id != 0 &&
    var live := Pruned(tokens, now);
    id in live && IsUpToDate(live[id].issuedAt, now, TokenDuration) && live[id].path == path
  }

  /** `is_authorized` with the freshness test as written. */
  predicate AuthorizedAsWritten(tokens: map<uint64, Token>, path: string, id: uint64, now: nat): (ok: bool)
    ensures ok ==> id != 0 && id in tokens && tokens[id].path == path
  {
    id != 0 &&
    var live := PrunedAsWritten(tokens, now);
    id in live && IsUpToDateAsWritten(live[id].issuedAt, now, TokenDuration) && live[id].path == path
  }

  /**
   * A token is accepted exactly when its id is nonzero and in the table,
   * bound to that very path, and issued less than an hour before `now`:
   * pruning first never changes the answer.
   */
  lemma AuthorizedIff(tokens: map<uint64, Token>, path: string, id: uint64, now: nat)
    ensures Authorized(tokens, path, id, now) <==>
      id != 0 && id in tokens && tokens[id].path == path &&
      tokens[id].issuedAt <= now < tokens[id].issuedAt + TokenDuration
  {
  }

  /** A token bound to one path is refused for every other path. */
  lemma PathScoped(tokens: map<uint64, Token>, a: string, b: string, id: uint64, now: nat)
    requires a != b
    requires Authorized(tokens, a, id, now)
    ensures !Authorized(tokens, b, id, now)
  {
  }

  /**
   * Checking a token does not consume it: the table a check leaves behind
   * gives the same answer to the same question at the same time, and a
   * second prune removes nothing more.
   */
  lemma CheckIsRepeatable(tokens: map<uint64, Token>, path: string, id: uint64, now: nat)
    ensures Pruned(Pruned(tokens, now), now) == Pruned(tokens, now)
    ensures Authorized(Pruned(tokens, now), path, id, now) == Authorized(tokens, path, id, now)
  {
  }

  /**
   * The life of one token: right after `authorize(path)` at `issuedAt`
   * returned `id`, and for as long as no other entry takes its place, it is
   * accepted for `path` strictly within the hour after `issuedAt` and for no
   * other path at any time.
   */
  lemma TokenLifetime(tokens: map<uint64, Token>, path: string, issuedAt: nat, id: uint64, other: string, now: nat)
    requires id != 0
    requires other != path
    ensures var issued := Pruned(tokens, issuedAt)[id := Token(path, issuedAt)];
      && (Authorized(issued, path, id, now) <==> issuedAt <= now < issuedAt + TokenDuration)
      && !Authorized(issued, other, id, now)
  {
    var issued := Pruned(tokens, issuedAt)[id := Token(path, issuedAt)];
    AuthorizedIff(issued, path, id, now);
  }

  /** Once every entry is an hour old, the next prune empties the table. */
  lemma PruneForgetsExpired(tokens: map<uint64, Token>, now: nat)
    requires forall id :: id in tokens ==> tokens[id].issuedAt + TokenDuration <= now
    ensures Pruned(tokens, now) == map[]
  {
    var live := Pruned(tokens, now);
    forall id ensures id !in live {
      if id in tokens {
        assert !IsUpToDate(tokens[id].issuedAt, now, TokenDuration);
      }
    }
    assert live.Keys == {};
  }

  /**
   * As written, a prune on a clock that never runs backwards removes nothing,
   * and every token stays valid for its path forever.
   */
  lemma AsWrittenNothingExpires(tokens: map<uint64, Token>, now: nat)
    requires forall id :: id in tokens ==> tokens[id].issuedAt <= now
    ensures PrunedAsWritten(tokens, now) == tokens
    ensures forall id :: id in tokens && id != 0 ==> AuthorizedAsWritten(tokens, tokens[id].path, id, now)
  {
    forall id | id in tokens ensures IsUpToDateAsWritten(tokens[id].issuedAt, now, TokenDuration) {
      assert SaturatingSub(tokens[id].issuedAt, now) == 0;
    }
    assert PrunedAsWritten(tokens, now).Keys == tokens.Keys;
  }

  /**
   * A token issued at time 0 and presented two hours later: the source
   * accepts it, the intended check refuses it.
   */
  lemma ExpiredTokenAcceptedAsWritten()
    ensures var tokens := map[1 as uint64 := Token("/tmp/doc.md", 0)];
      && AuthorizedAsWritten(tokens, "/tmp/doc.md", 1, 2 * TokenDuration)
      && !Authorized(tokens, "/tmp/doc.md", 1, 2 * TokenDuration)
  {
    var tokens := map[1 as uint64 := Token("/tmp/doc.md", 0)];
    AsWrittenNothingExpires(tokens, 2 * TokenDuration);
  }

  /**
   * The retry loop of `authorize`: draws candidates in order until one is
   * nonzero and not already in use, and returns it with its position.
   * The caller's random source must eventually produce such a candidate.
   */
  method DrawId(random: seq<uint64>, inUse: set<uint64>) returns (id: uint64, drawn: nat)
    requires exists k :: 0 <= k < |random| && random[k] != 0 && random[k] !in inUse
    ensures drawn < |random| && id == random[drawn]
    ensures id != 0 && id !in inUse
    ensures forall j :: 0 <= j < drawn ==> random[j] == 0 || random[j] in inUse
  {
    drawn := 0;
    while random[drawn] == 0 || random[drawn] in inUse
      invariant drawn < |random|
      invariant forall j :: 0 <= j < drawn ==> random[j] == 0 || random[j] in inUse
      decreases |random| - drawn
    {
      drawn := drawn + 1;
    }
    id := random[drawn];
  }

  /** The process-wide `TOKENS` table. */
  class TokenStore {
    var tokens: map<uint64, Token>

    /** Id 0 is reserved for "no token" and is never stored. */
    ghost predicate Valid()
      reads this
    {
      0 !in tokens
    }

    constructor ()
      ensures Valid() && tokens == map[]
    {
      tokens := map[];
    }

    /** `prune`: drops every entry that is no longer fresh at `now`. */
    method Prune(now: nat)
      requires Valid()
      modifies this
      ensures Valid()
      ensures tokens == Pruned(old(tokens), now)
    {
      tokens := Pruned(tokens, now);
    }

    /**
     * `authorize(path)`: prunes, then stores the first usable random id for
     * `path` at `now` and returns it. Every other surviving entry is kept as
     * it was.
     */
    method Authorize(path: string, now: nat, random: seq<uint64>) returns (id: uint64)
      requires Valid()
      requires exists k :: 0 <= k < |random| && random[k] != 0 && random[k] !in Pruned(tokens, now)
      modifies this
      ensures Valid()
      ensures id != 0 && id !in Pruned(old(tokens), now)
      ensures id in random
      ensures tokens == Pruned(old(tokens), now)[id := Token(path, now)]
    {
      Prune(now);
      var drawn;
      id, drawn := DrawId(random, tokens.Keys);
      tokens := tokens[id := Token(path, now)];
    }

    /**
     * `is_authorized(path, id)`: id 0 is refused before the table is touched;
     * otherwise the table is pruned and the answer is whether `id` is fresh
     * and bound to exactly `path`. The token itself is never removed here.
     */
    method IsAuthorized(path: string, id: uint64, now: nat) returns (ok: bool)
      requires Valid()
      modifies this
      ensures Valid()
      ensures tokens == if id == 0 then old(tokens) else Pruned(old(tokens), now)
      ensures ok == Authorized(old(tokens), path, id, now)
      ensures ok ==> id in tokens && tokens[id] == old(tokens)[id]
    {
      if id == 0 {
        return false;
      }
      Prune(now);
      if id !in tokens {
        return false;
      }
      var entry := tokens[id];
      ok := IsUpToDate(entry.issuedAt, now, TokenDuration) && entry.path == path;
    }
  }
}

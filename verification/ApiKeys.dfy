/** Bearer tokens: how they are printed and parsed (apps/api_keys/services.py). */
module Tokens {
  import opened Common

  const TOKEN_PREFIX := "bb_studio_"
  const LOOKUP_LEN := 8

  /** The two digests, as functions: the plaintext lookup and the stored keyed hash. */
  datatype Crypto = Crypto(lookupOf: string -> string, mac: string -> string)

  /** Lookups are the first eight hex digits of a digest. */
  ghost predicate HexLookups(c: Crypto) {
    forall s :: |c.lookupOf(s)| == LOOKUP_LEN && '_' !in c.lookupOf(s)
  }

  datatype Parsed = Parsed(randomPart: string, lookupPrefix: string)

  function PrintToken(c: Crypto, secret: string): string {
    TOKEN_PREFIX + secret + "_" + c.lookupOf(secret)
  }

  /** Index of the last underscore, or -1. */
  function LastUnderscore(s: string): (i: int)
    ensures -1 <= i < |s|
    ensures i >= 0 ==> s[i] == '_'
    ensures forall j :: i < j < |s| ==> s[j] != '_'
  {
    if s == [] then -1
    else if s[|s| - 1] == '_' then |s| - 1
    else LastUnderscore(s[..|s| - 1])
  }

  function ParseToken(c: Crypto, raw: string): Option<Parsed> {
    if !(TOKEN_PREFIX <= raw) then None
    else
      var body := raw[|TOKEN_PREFIX|..];
      var i := LastUnderscore(body);
      if i < 0 then None
      else
        var randomPart, lookup := body[..i], body[i + 1..];
        if |lookup| != LOOKUP_LEN then None
        else if !(32 <= |randomPart| <= 64) then None
        else if c.lookupOf(randomPart) != lookup then None
        else Some(Parsed(randomPart, lookup))
  }

  /** Every printed token parses back, even when the secret itself contains underscores. */
  lemma PrintedTokensParse(c: Crypto, secret: string)
    requires HexLookups(c) && 32 <= |secret| <= 64
    ensures ParseToken(c, PrintToken(c, secret)) == Some(Parsed(secret, c.lookupOf(secret)))
  {
    var raw, lookup := PrintToken(c, secret), c.lookupOf(secret);
    var body := raw[|TOKEN_PREFIX|..];
    assert body == secret + "_" + lookup;
    var i := LastUnderscore(body);
    assert body[|secret|] == '_';
    assert forall j :: |secret| < j < |body| ==> body[j] == lookup[j - |secret| - 1];
    assert i == |secret|;
    assert body[..i] == secret && body[i + 1..] == lookup;
  }

  /** Parsing and printing are mutual inverses on exactly the accepted strings. */
  lemma ParseIffPrinted(c: Crypto, raw: string, p: Parsed)
    requires HexLookups(c)
    ensures ParseToken(c, raw) == Some(p)
            <==> raw == PrintToken(c, p.randomPart) && p.lookupPrefix == c.lookupOf(p.randomPart)
                 && 32 <= |p.randomPart| <= 64
  {
    if ParseToken(c, raw) == Some(p) {
      var body := raw[|TOKEN_PREFIX|..];
      var i := LastUnderscore(body);
      assert raw == TOKEN_PREFIX + body;
      assert body == body[..i] + "_" + body[i + 1..];
    } else if raw == PrintToken(c, p.randomPart) && 32 <= |p.randomPart| <= 64 {
      PrintedTokensParse(c, p.randomPart);
    }
  }
}

/** API keys, the row cache in front of them, and the signals that bust it
    (apps/api_keys/services.py, apps/api_keys/signals.py). */
module ApiKeys {
  import opened Common
  import opened Tokens

  // Seconds a cached row stays readable.
  const CACHE_TTL := 30

  type User = int
  type Workspace = int
  type Account = int
  type Lookup = string

  datatype KeyRow = KeyRow(
    workspace: Workspace, issuer: Option<User>, tokenHash: string, permissions: set<string>,
    accounts: set<Account>, expiresAt: Option<int>, revokedAt: Option<int>)

  datatype Cached = Cached(row: KeyRow, until: int)

  /** `departed` are the deleted users. Deleting one clears the issuer of his keys without
      any signal. */
  datatype Store = Store(
    rows: map<Lookup, KeyRow>, members: set<(User, Workspace)>, cache: map<Lookup, Cached>, departed: set<User>)

  predicate IsActive(row: KeyRow, now: int) {
    row.revokedAt.None? && !(row.expiresAt.Some? && row.expiresAt.value <= now)
  }

  predicate IssuerAuthorized(members: set<(User, Workspace)>, row: KeyRow) {
    row.issuer.Some? && (row.issuer.value, row.workspace) in members
  }

  /** The decision taken straight from the database. */
  function FromDatabase(s: Store, c: Crypto, raw: string, now: int): Option<KeyRow> {
    match ParseToken(c, raw)
    case None => None
    case Some(p) =>
      if p.lookupPrefix !in s.rows then None
      else
        var row := s.rows[p.lookupPrefix];
        if IsActive(row, now) && row.tokenHash == c.mac(p.randomPart) && IssuerAuthorized(s.members, row)
        then Some(row) else None
  }

  /** The token, if it is well-formed, carries this lookup. */
  ghost predicate PrintedFor(c: Crypto, raw: string, l: Lookup) {
    ParseToken(c, raw).Some? && ParseToken(c, raw).value.lookupPrefix == l
  }

  function CacheGet(cache: map<Lookup, Cached>, l: Lookup, now: int): Option<KeyRow> {
    if l in cache && now < cache[l].until then Some(cache[l].row) else None
  }

  /** After a miss an active row goes into the cache, for half a minute. */
  ghost predicate FilledNow(before: Store, after: Store, l: Lookup, now: int) {
    && l in after.rows && l in after.cache && after.cache[l] == Cached(after.rows[l], now + 30)
    && (l in before.cache ==> before.cache[l].until <= now)
    && after.rows[l].revokedAt.None? && (after.rows[l].expiresAt.Some? ==> now < after.rows[l].expiresAt.value)
  }

  // ---------------------------------------------------------------------
  // Coherence
  // ---------------------------------------------------------------------

  /** A cached row may lag behind in one respect only: it may still name an issuer who has
      been deleted since. */
  ghost predicate Current(s: Store, l: Lookup, row: KeyRow) {
    && l in s.rows
    && (row == s.rows[l]
        || (row.issuer.Some? && row.issuer.value in s.departed && s.rows[l] == row.(issuer := None)))
  }

  ghost predicate Coherent(s: Store) {
    && (forall l :: l in s.cache ==> Current(s, l, s.cache[l].row))
    && (forall u, w :: (u, w) in s.members ==> u !in s.departed)
    && (forall l :: l in s.rows && s.rows[l].issuer.Some? ==> s.rows[l].issuer.value !in s.departed)
  }

  /** The store the cache stands in front of. */
  class KeyStore {
    const crypto: Crypto
    var rows: map<Lookup, KeyRow>
    var members: set<(User, Workspace)>
    var cache: map<Lookup, Cached>
    ghost var departed: set<User>

    ghost function View(): Store
      reads this
    {
      Store(rows, members, cache, departed)
    }

    constructor (crypto: Crypto)
      ensures this.crypto == crypto && View() == Store(map[], {}, map[], {}) && Coherent(View())
    {
      this.crypto := crypto;
      rows, members, cache, departed := map[], {}, map[], {};
    }

    /** The cached decision is the uncached one, whatever the cache holds. */
    method VerifyToken(raw: string, now: int) returns (r: Option<KeyRow>)
      requires Coherent(View())
      modifies this`cache
      ensures r == FromDatabase(old(View()), crypto, raw, now)
      ensures Coherent(View())
      ensures forall l :: l in cache ==>
                (l in old(cache) && cache[l] == old(cache)[l])
                || (PrintedFor(crypto, raw, l) && FilledNow(old(View()), View(), l, now))
      ensures r.None? ==> forall l :: PrintedFor(crypto, raw, l) && l in cache && now < cache[l].until && l in rows ==>
                                        rows[l].tokenHash != crypto.mac(ParseToken(crypto, raw).value.randomPart)
      ensures r.Some? ==> exists l :: l in cache && PrintedFor(crypto, raw, l) && now < cache[l].until
    {
      var parsed := ParseToken(crypto, raw);
      if parsed.None? {
        return None;
      }
      var l := parsed.value.lookupPrefix;
      var found := CacheGet(cache, l, now);
      if found.None? {
        if l !in rows {
          return None;
        }
        found := Some(rows[l]);
        if IsActive(found.value, now) {
          cache := cache[l := Cached(found.value, now + CACHE_TTL)];
        }
      }
      var row := found.value;
      CachedRowDecidesAlike(old(View()), l, row);
      if !IsActive(row, now) {
        cache := cache - {l};
        return None;
      }
      if crypto.mac(parsed.value.randomPart) != row.tokenHash {
        return None;
      }
      if !IssuerAuthorized(members, row) {
        cache := cache - {l};
        return None;
      }
      return Some(row);
    }

    method Invalidate(ls: set<Lookup>)
      modifies this`cache
      ensures cache == old(cache) - ls
    {
      cache := cache - ls;
    }

    /** Saving a row, with its post-save signal. */
    method SaveRow(l: Lookup, row: KeyRow)
      requires Coherent(View()) && (row.issuer.Some? ==> row.issuer.value !in departed)
      modifies this`rows, this`cache
      ensures Coherent(View()) && rows == old(rows)[l := row] && l !in cache
    {
      rows := rows[l := row];
      Invalidate({l});
    }

    /** Replacing a key's allowlist, with its forward signal. */
    method SetAccounts(l: Lookup, accounts: set<Account>)
      requires Coherent(View()) && l in rows
      modifies this`rows, this`cache
      ensures Coherent(View()) && rows == old(rows)[l := old(rows)[l].(accounts := accounts)] && l !in cache
    {
      rows := rows[l := rows[l].(accounts := accounts)];
      Invalidate({l});
    }

    /** Adding an account to keys from its own side; the signal names the keys. */
    method ReverseAdd(a: Account, ls: set<Lookup>)
      requires Coherent(View())
      modifies this`rows, this`cache
      ensures Coherent(View())
      ensures rows == map l | l in old(rows) ::
                        if l in ls then old(rows)[l].(accounts := old(rows)[l].accounts + {a}) else old(rows)[l]
    {
      rows := map l | l in rows :: if l in ls then rows[l].(accounts := rows[l].accounts + {a}) else rows[l];
      Invalidate(ls);
    }

    /** Removing likewise: the relation is gone by the time the signal fires, so the handler
        goes by the keys it names. */
    method ReverseRemove(a: Account, ls: set<Lookup>)
      requires Coherent(View())
      modifies this`rows, this`cache
      ensures Coherent(View())
      ensures rows == map l | l in old(rows) ::
                        if l in ls then old(rows)[l].(accounts := old(rows)[l].accounts - {a}) else old(rows)[l]
    {
      rows := map l | l in rows :: if l in ls then rows[l].(accounts := rows[l].accounts - {a}) else rows[l];
      Invalidate(ls);
    }

    /** Clearing names no keys at all, so the handler remembers them beforehand. */
    method ReverseClear(a: Account)
      requires Coherent(View())
      modifies this`rows, this`cache
      ensures Coherent(View())
      ensures rows == map l | l in old(rows) :: old(rows)[l].(accounts := old(rows)[l].accounts - {a})
    {
      var snapshot := set l | l in rows && a in rows[l].accounts;
      rows := map l | l in rows :: rows[l].(accounts := rows[l].accounts - {a});
      assert forall l :: l in rows && l !in snapshot ==> rows[l] == old(rows)[l];
      Invalidate(snapshot);
    }

    /** Membership changes touch neither rows nor cache. */
    method SetMember(u: User, w: Workspace, member: bool)
      requires Coherent(View()) && (member ==> u !in departed)
      modifies this`members
      ensures Coherent(View())
      ensures members == if member then old(members) + {(u, w)} else old(members) - {(u, w)}
    {
      members := if member then members + {(u, w)} else members - {(u, w)};
    }

    /** Deleting a user ends his memberships and clears his keys' issuer, without a signal. */
    method DeleteUser(u: User)
      requires Coherent(View())
      modifies this
      ensures Coherent(View()) && cache == old(cache) && departed == old(departed) + {u}
      ensures rows == map l | l in old(rows) ::
                        if old(rows)[l].issuer == Some(u) then old(rows)[l].(issuer := None) else old(rows)[l]
      ensures members == set m | m in old(members) && m.0 != u
    {
      rows := map l | l in rows :: if rows[l].issuer == Some(u) then rows[l].(issuer := None) else rows[l];
      members := set m | m in members && m.0 != u;
      departed := departed + {u};
    }

    method RevokeKey(l: Lookup, now: int)
      requires Coherent(View()) && l in rows
      modifies this`rows, this`cache
      ensures Coherent(View()) && l !in cache && rows.Keys == old(rows).Keys
      ensures rows[l] == old(rows)[l].(revokedAt := if old(rows)[l].revokedAt.Some? then old(rows)[l].revokedAt else Some(now))
      ensures forall j :: j in rows && j != l ==> rows[j] == old(rows)[j]
    {
      if rows[l].revokedAt.None? {
        SaveRow(l, rows[l].(revokedAt := Some(now)));
      }
      Invalidate({l});
    }

    /** Editing a key's scope. `grantable` is what the editor may grant in the key's
        workspace, absent without a membership there; `ours` are that workspace's accounts. */
    method UpdateKey(l: Lookup, mayManage: bool, grantable: Option<set<string>>, ours: set<Account>,
                     permissions: set<string>, accounts: set<Account>, expiresAt: Option<int>)
      returns (ok: bool)
      requires Coherent(View()) && l in rows
      modifies this`rows, this`cache
      ensures Coherent(View())
      ensures ok == (mayManage && grantable.Some? && accounts != {} && accounts <= ours)
      ensures !ok ==> rows == old(rows)
      ensures ok ==> l !in cache && rows.Keys == old(rows).Keys && Edited(old(rows)[l], rows[l], grantable.value, permissions)
                     && rows[l].accounts == accounts && rows[l].expiresAt == expiresAt
                     && forall j :: j in rows && j != l ==> rows[j] == old(rows)[j]
    {
      if !mayManage || grantable.None? || accounts == {} || !(accounts <= ours) {
        return false;
      }
      var current := rows[l].permissions;
      var edited := (permissions * grantable.value) + (current - grantable.value);
      SaveRow(l, rows[l].(permissions := edited, expiresAt := expiresAt));
      SetAccounts(l, accounts);
      return true;
    }
  }

  /** An edit decides each permission the editor can grant as asked, keeps each one he
      cannot, and leaves the key's identity alone. */
  ghost predicate Edited(before: KeyRow, after: KeyRow, grantable: set<string>, asked: set<string>) {
    && (forall p :: p in grantable ==> (p in after.permissions <==> p in asked))
    && (forall p :: p !in grantable ==> (p in after.permissions <==> p in before.permissions))
    && after.workspace == before.workspace && after.issuer == before.issuer
    && after.tokenHash == before.tokenHash && after.revokedAt == before.revokedAt
  }

  /** A token is accepted, and with this row, exactly when it is the printed form of a secret
      of admissible length whose lookup names the row, the row is neither revoked nor expired,
      it stores the secret's keyed hash, and its issuer is a member of its workspace. */
  lemma VerifiedIff(s: Store, c: Crypto, raw: string, now: int, row: KeyRow)
    requires HexLookups(c)
    ensures FromDatabase(s, c, raw, now) == Some(row)
            <==> (exists secret :: Presents(s, c, raw, secret, row))
                 && row.revokedAt.None? && (row.expiresAt.Some? ==> now < row.expiresAt.value)
                 && row.issuer.Some? && (row.issuer.value, row.workspace) in s.members
  {
    match ParseToken(c, raw)
    case Some(p) =>
      ParseIffPrinted(c, raw, p);
      assert FromDatabase(s, c, raw, now) == Some(row) ==> Presents(s, c, raw, p.randomPart, row);
      forall secret | Presents(s, c, raw, secret, row) ensures secret == p.randomPart {
        PrintedTokensParse(c, secret);
      }
    case None =>
      forall secret | Presents(s, c, raw, secret, row) ensures ParseToken(c, raw).Some? {
        PrintedTokensParse(c, secret);
      }
  }

  ghost predicate Presents(s: Store, c: Crypto, raw: string, secret: string, row: KeyRow) {
    && 32 <= |secret| <= 64 && raw == TOKEN_PREFIX + secret + "_" + c.lookupOf(secret)
    && c.lookupOf(secret) in s.rows && s.rows[c.lookupOf(secret)] == row && row.tokenHash == c.mac(secret)
  }

  /** As long as its row says that it was revoked, no token of a key is accepted, at any time
      and by whatever secret. */
  lemma RevokedIsRefused(s: Store, c: Crypto, l: Lookup, raw: string, now: int)
    requires HexLookups(c) && l in s.rows && s.rows[l].revokedAt.Some? && PrintedFor(c, raw, l)
    ensures FromDatabase(s, c, raw, now).None?
  {
    if FromDatabase(s, c, raw, now).Some? {
      VerifiedIff(s, c, raw, now, FromDatabase(s, c, raw, now).value);
    }
  }

  /** The heart of the refinement: a coherent cached row leads to the database's decision. */
  lemma CachedRowDecidesAlike(s: Store, l: Lookup, row: KeyRow)
    requires Coherent(s) && Current(s, l, row)
    ensures IssuerAuthorized(s.members, row) <==> IssuerAuthorized(s.members, s.rows[l])
    ensures IssuerAuthorized(s.members, row) ==> row == s.rows[l]
    ensures forall now :: IsActive(row, now) <==> IsActive(s.rows[l], now)
    ensures row.tokenHash == s.rows[l].tokenHash
  {
    if IssuerAuthorized(s.members, row) {
      var u, w := row.issuer.value, row.workspace;
      assert (u, w) in s.members;
      assert u !in s.departed;
    }
  }
}

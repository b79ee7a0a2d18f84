/** API credentials (`api` application models): API keys with their
    validity check and IP allow-list, the permission string of a key,
    documented endpoints' method lists, access tokens with their expiry
    and revocation, and webhook event lists. Moments are integer seconds;
    generated keys and tokens are passed in. An empty string stands for a
    credential that is not set. */
module Api {
  import opened Common

  // -----------------------------------------------------------------------
  // Comma-separated lists

  function StripAll(parts: seq<string>): (r: seq<string>)
    ensures |r| == |parts| && forall i :: 0 <= i < |parts| ==> r[i] == Strip(parts[i])
  {
    if parts == [] then [] else StripAll(parts[..|parts| - 1]) + [Strip(parts[|parts| - 1])]
  }

  /** `[x.strip() for x in s.split(',')]`: how an API key's `allowed_ips`,
      an endpoint's `methods_list` and a webhook's `event_types_list` read
      their comma-separated text. */
  function CommaList(s: string): seq<string> {
    StripAll(Split(s, ','))
  }

  /** Stripping never brings in a character the text did not have. */
  lemma StripKeepsOut(s: string, c: char)
    requires c !in s
    ensures c !in Strip(s)
  {
    StripShape(s);
  }

  /** A list has one entry more than the text has commas (so "" gives
      [""]), and no entry has a comma or surrounding whitespace. */
  lemma CommaListShape(s: string)
    ensures |CommaList(s)| == CountChar(s, ',') + 1
    ensures CommaList("") == [""]
    ensures forall e :: e in CommaList(s) ==> ',' !in e && Strip(e) == e
  {
    SplitCount(s, ',');
    var parts := Split(s, ',');
    assert Split("", ',') == [""];
    assert CommaList("") == [Strip("")];
    forall e | e in CommaList(s) ensures ',' !in e && Strip(e) == e {
      var i :| 0 <= i < |parts| && e == StripAll(parts)[i];
      assert parts[i] in parts;
      StripIdempotent(parts[i]);
      StripKeepsOut(parts[i], ',');
    }
  }

  /** A list of such entries written with commas reads back as itself. */
  lemma CommaListRoundTrip(entries: seq<string>)
    requires |entries| >= 1
    requires forall e :: e in entries ==> ',' !in e && Strip(e) == e
    ensures CommaList(Join(entries, ",")) == entries
  {
    SplitJoin(entries, ',');
    StripAllKeeps(entries);
  }

  /** Stripping entries that are already stripped changes nothing. */
  lemma StripAllKeeps(parts: seq<string>)
    requires forall e :: e in parts ==> Strip(e) == e
    ensures StripAll(parts) == parts
  {
    var r := StripAll(parts);
    forall i | 0 <= i < |parts| ensures r[i] == parts[i] {
      assert parts[i] in parts;
    }
  }

  // -----------------------------------------------------------------------
  // API keys

  /** An API key (`APIKey`). */
  class ApiKey {
    var key: string
    var name: string
    var isActive: bool
    var expiresAt: Option<int>
    var allowedIps: string

    constructor (name: string, expiresAt: Option<int>, allowedIps: string)
      ensures this.name == name && this.expiresAt == expiresAt && this.allowedIps == allowedIps
      ensures key == "" && isActive
    {
      this.name := name;
      this.expiresAt := expiresAt;
      this.allowedIps := allowedIps;
      key := "";
      isActive := true;
    }

    /** `save`: a key is generated only when there is none. */
    method Save(generated: string)
      requires |generated| == 64
      modifies this
      ensures key == if old(key) == "" then generated else old(key)
      ensures key != ""
      ensures name == old(name) && isActive == old(isActive) && expiresAt == old(expiresAt) && allowedIps == old(allowedIps)
    {
      if key == "" {
        key := generated;
      }
    }

    /** `is_valid`: active, not past its expiry, and, when both an address
        and an allow-list are given, the address is one of the listed
        ones. */
    predicate IsValid(ip: string, now: int)
      reads this
    {
      isActive &&
      !(expiresAt.Some? && expiresAt.value < now) &&
      !(ip != "" && allowedIps != "" && ip !in CommaList(allowedIps))
    }
  }

  /** An empty allow-list admits every address; with a list, an address
      is admitted exactly when it is one of the entries written there; no
      address is admitted by an inactive or expired key. */
  lemma AllowList(k: ApiKey, ips: seq<string>, ip: string, now: int)
    requires |ips| >= 1 && forall e :: e in ips ==> ',' !in e && Strip(e) == e
    requires k.isActive && !(k.expiresAt.Some? && k.expiresAt.value < now)
    ensures k.allowedIps == "" ==> k.IsValid(ip, now)
    ensures k.allowedIps == Join(ips, ",") && k.allowedIps != "" && ip != "" ==> (k.IsValid(ip, now) <==> ip in ips)
  {
    CommaListRoundTrip(ips);
  }

  /** A key is still valid at the moment it expires and is invalid after
      it, whatever the address. */
  lemma ExpiryIsStrict(k: ApiKey, ip: string, t: int)
    requires k.expiresAt == Some(t)
    ensures !k.IsValid(ip, t + 1)
    ensures k.IsValid(ip, t) <==> k.isActive && !(ip != "" && k.allowedIps != "" && ip !in CommaList(k.allowedIps))
  {
  }

  // -----------------------------------------------------------------------
  // Key permissions

  /** The letters of `APIKeyPermission.__str__`: R, C, U and D for the
      set flags, in that order, comma-joined. */
  function PermissionLetters(read: bool, create: bool, update: bool, delete: bool): seq<string> {
    (if read then ["R"] else []) + (if create then ["C"] else []) +
    (if update then ["U"] else []) + (if delete then ["D"] else [])
  }

  function PermissionString(keyName: string, resource: string, read: bool, create: bool, update: bool, delete: bool): string {
    keyName + " - " + resource + ": " + Join(PermissionLetters(read, create, update, delete), ",")
  }

  /** Each flag is set exactly when its letter is listed, and the
      listed letters keep the fixed order R, C, U, D. */
  lemma PermissionLettersExact(read: bool, create: bool, update: bool, delete: bool)
    ensures var ls := PermissionLetters(read, create, update, delete);
      ("R" in ls <==> read) && ("C" in ls <==> create) && ("U" in ls <==> update) && ("D" in ls <==> delete) &&
      (forall i, j :: 0 <= i < j < |ls| ==> Rank(ls[i]) < Rank(ls[j]))
  {
  }

  /** Position of a permission letter in the fixed order. */
  function Rank(letter: string): nat {
    if letter == "R" then 0 else if letter == "C" then 1 else if letter == "U" then 2 else 3
  }

  /** The text after the key and resource names splits at the commas back
      into the listed letters, and is empty exactly when no flag is set. */
  lemma PermissionStringReadsBack(keyName: string, resource: string, read: bool, create: bool, update: bool, delete: bool)
    ensures var ls := PermissionLetters(read, create, update, delete);
      var s := PermissionString(keyName, resource, read, create, update, delete);
      var n := |keyName + " - " + resource + ": "|;
      n <= |s| && (ls != [] ==> Split(s[n..], ',') == ls) && (ls == [] <==> n == |s|)
  {
    var ls := PermissionLetters(read, create, update, delete);
    var head := keyName + " - " + resource + ": ";
    var s := PermissionString(keyName, resource, read, create, update, delete);
    assert s == head + Join(ls, ",");
    assert s[|head|..] == Join(ls, ",");
    if ls != [] {
      assert forall e :: e in ls ==> ',' !in e;
      SplitJoin(ls, ',');
      JoinNonEmpty(ls);
    }
  }

  lemma JoinNonEmpty(ls: seq<string>)
    requires ls != [] && ls[0] != ""
    ensures Join(ls, ",") != ""
  {
    if |ls| > 1 {
      assert Join(ls, ",") == ls[0] + "," + Join(ls[1..], ",");
    }
  }

  // -----------------------------------------------------------------------
  // Access tokens

  /** An access token (`APIToken`) issued through a client whose lifetimes
      are `accessLifetime` minutes and `refreshLifetime` days. */
  class ApiToken {
    var accessToken: string
    var refreshToken: string
    var expiresAt: Option<int>
    var refreshExpiresAt: Option<int>
    var isActive: bool
    const accessLifetime: nat
    const refreshLifetime: nat

    constructor (accessLifetime: nat, refreshLifetime: nat)
      ensures this.accessLifetime == accessLifetime && this.refreshLifetime == refreshLifetime
      ensures accessToken == "" && refreshToken == "" && expiresAt.None? && refreshExpiresAt.None? && isActive
    {
      this.accessLifetime := accessLifetime;
      this.refreshLifetime := refreshLifetime;
      accessToken := "";
      refreshToken := "";
      expiresAt := None;
      refreshExpiresAt := None;
      isActive := true;
    }

    /** `save`: missing tokens and expiry moments are filled in, a refresh
        token only when the client grants refresh tokens, its expiry only
        when there is a refresh token. */
    method Save(now: int, access: string, refresh: string)
      requires access != "" && refresh != ""
      modifies this
      ensures accessToken == if old(accessToken) == "" then access else old(accessToken)
      ensures refreshToken == if old(refreshToken) == "" && refreshLifetime > 0 then refresh else old(refreshToken)
      ensures expiresAt == if old(expiresAt).None? then Some(now + accessLifetime * 60) else old(expiresAt)
      ensures refreshExpiresAt ==
        if old(refreshExpiresAt).None? && refreshToken != "" then Some(now + refreshLifetime * 86400) else old(refreshExpiresAt)
      ensures isActive == old(isActive)
      ensures accessToken != "" && expiresAt.Some? && (refreshToken != "" ==> refreshExpiresAt.Some?)
    {
      if accessToken == "" {
        accessToken := access;
      }
      if refreshToken == "" && refreshLifetime > 0 {
        refreshToken := refresh;
      }
      if expiresAt.None? {
        expiresAt := Some(now + accessLifetime * 60);
      }
      if refreshExpiresAt.None? && refreshToken != "" {
        refreshExpiresAt := Some(now + refreshLifetime * 86400);
      }
    }

    /** `is_expired`: strictly past the expiry moment. */
    predicate IsExpired(now: int)
      reads this
      requires expiresAt.Some?
    {
      expiresAt.value < now
    }

    /** `revoke`: only the activity flag changes. */
    method Revoke()
      modifies this
      ensures !isActive
      ensures accessToken == old(accessToken) && refreshToken == old(refreshToken)
      ensures expiresAt == old(expiresAt) && refreshExpiresAt == old(refreshExpiresAt)
    {
      isActive := false;
    }
  }

  /** A fresh token saved at `now` is not expired until its lifetime has
      passed and is expired right after. */
  lemma FreshTokenLifetime(t: ApiToken, now: int, later: int)
    requires t.expiresAt == Some(now + t.accessLifetime * 60)
    ensures now <= later <= now + t.accessLifetime * 60 ==> !t.IsExpired(later)
    ensures later > now + t.accessLifetime * 60 ==> t.IsExpired(later)
  {
  }
}

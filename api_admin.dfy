/** The API administration screens (`api/admin.py`): masked previews of
    keys and client ids, the token validity column, the event-type column
    of webhooks, the initiator column of the error log, and the actions
    that regenerate keys, revoke tokens and retry webhook deliveries. */
module ApiAdmin {
  import opened Common
  import opened Api

  // -----------------------------------------------------------------------
  // Previews

  /** `get_key_preview`, `get_client_id_preview` and
      `get_access_token_preview`: the first six characters, "..." and the
      last four, or "-" for a missing value. */
  function MaskedPreview(s: string): string
  {
    if s != "" then Head(s, 6) + "..." + Tail(s, 4) else "-"
  }

  /** The preview is "-" exactly for a missing value; otherwise it is a
      prefix and a suffix of the value around the dots, at most thirteen
      characters long, so a long value is never shown whole. */
  lemma PreviewHidesMiddle(s: string)
    ensures MaskedPreview(s) == "-" <==> s == ""
    ensures s != "" ==> exists p, q :: MaskedPreview(s) == p + "..." + q && StartsWith(s, p) && EndsWith(s, q)
    ensures |MaskedPreview(s)| <= 13
  {
    if s != "" {
      var r := MaskedPreview(s);
      assert |r| >= 4;
      assert r == Head(s, 6) + "..." + Tail(s, 4);
    }
  }

  /** A value of at least ten characters always shows as thirteen: its
      own first six characters, the dots and its own last four. */
  lemma PreviewShowsEnds(s: string)
    requires |s| >= 10
    ensures var r := MaskedPreview(s);
      |r| == 13 && r[..6] == s[..6] && r[6..9] == "..." && r[9..] == s[|s| - 4..]
  {
  }

  /** A value shorter than four characters is shown twice, once on each
      side of the dots. */
  lemma ShortPreviewRepeats(s: string)
    requires 0 < |s| < 4
    ensures MaskedPreview(s) == s + "..." + s
  {
  }

  // -----------------------------------------------------------------------
  // Tokens

  /** `is_token_valid`: active and not expired. */
  predicate IsTokenValid(t: ApiToken, now: int)
    reads t
    requires t.expiresAt.Some?
  {
    t.isActive && !t.IsExpired(now)
  }

  /** A token is valid exactly up to and including its expiry moment while
      it is active, and never once revoked. */
  lemma TokenValidUntilExpiry(t: ApiToken, now: int)
    requires t.expiresAt.Some?
    ensures IsTokenValid(t, now) <==> t.isActive && now <= t.expiresAt.value
    ensures !t.isActive ==> !IsTokenValid(t, now)
  {
  }

  /** `revoke_tokens`: every selected token is revoked. */
  method RevokeTokens(tokens: seq<ApiToken>)
    modifies set t | t in tokens
    ensures forall t :: t in tokens ==>
      !t.isActive && t.accessToken == old(t.accessToken) && t.expiresAt == old(t.expiresAt) &&
      t.refreshToken == old(t.refreshToken) && t.refreshExpiresAt == old(t.refreshExpiresAt)
    ensures forall t :: t in tokens && t.expiresAt.Some? ==> forall now :: !IsTokenValid(t, now)
  {
    for k := 0 to |tokens|
      invariant forall t :: t in tokens[..k] ==> !t.isActive
      invariant forall t :: t in tokens ==> t.accessToken == old(t.accessToken) && t.expiresAt == old(t.expiresAt)
      invariant forall t :: t in tokens ==>
        t.refreshToken == old(t.refreshToken) && t.refreshExpiresAt == old(t.refreshExpiresAt)
    {
      tokens[k].Revoke();
      assert tokens[..k + 1] == tokens[..k] + [tokens[k]];
    }
    assert tokens[..|tokens|] == tokens;
  }

  // -----------------------------------------------------------------------
  // Keys

  /** `regenerate_key`: each selected key is cleared and saved, so it
      takes the freshly generated value; nothing else about it changes. */
  method RegenerateKeys(keys: seq<ApiKey>, generated: seq<string>)
    requires |generated| == |keys|
    requires forall i :: 0 <= i < |generated| ==> |generated[i]| == 64
    requires forall i, j :: 0 <= i < j < |keys| ==> keys[i] != keys[j]
    modifies set k | k in keys
    ensures forall i :: 0 <= i < |keys| ==> keys[i].key == generated[i]
    ensures forall k :: k in keys ==>
      k.name == old(k.name) && k.isActive == old(k.isActive) &&
      k.expiresAt == old(k.expiresAt) && k.allowedIps == old(k.allowedIps)
  {
    for i := 0 to |keys|
      invariant forall j :: 0 <= j < i ==> keys[j].key == generated[j]
      invariant forall k :: k in keys ==>
        k.name == old(k.name) && k.isActive == old(k.isActive) &&
        k.expiresAt == old(k.expiresAt) && k.allowedIps == old(k.allowedIps)
    {
      keys[i].key := "";
      keys[i].Save(generated[i]);
    }
  }

  // -----------------------------------------------------------------------
  // Webhooks

  /** `get_event_types`: up to three types joined by ", ", otherwise the
      first three and how many more there are. */
  function EventTypesDisplay(types: seq<string>): string {
    if |types| > 3 then Join(types[..3], ", ") + (" и еще " + NatToString(|types| - 3))
    else Join(types, ", ")
  }

  /** A short list reads back entry for entry when its text is split at
      the commas again. */
  lemma ShortEventTypesReadBack(types: seq<string>)
    requires 1 <= |types| <= 3
    requires forall e :: e in types ==> ',' !in e && Strip(e) == e
    ensures CommaList(EventTypesDisplay(types)) == types
  {
    JoinCommaSpaceReadsBack(types);
  }

  /** A long list shows its first three entries and a count that reads
      back as the number left out. */
  lemma LongEventTypesShowCount(types: seq<string>)
    requires |types| > 3
    ensures var count := NatToString(|types| - 3);
      StartsWith(EventTypesDisplay(types), Join(types[..3], ", ")) &&
      EndsWith(EventTypesDisplay(types), " и еще " + count) &&
      3 + ParseNat(count) == |types|
  {
    ParseNatToString(|types| - 3);
    ConcatEnds(Join(types[..3], ", "), " и еще " + NatToString(|types| - 3));
  }

  lemma ConcatEnds(head: string, tail: string)
    ensures StartsWith(head + tail, head) && EndsWith(head + tail, tail)
  {
    var d := head + tail;
    assert d[..|head|] == head;
    assert d[|d| - |tail|..] == tail;
  }

  /** Every entry with a space in front of it. */
  function Spaced(ts: seq<string>): (r: seq<string>)
    ensures |r| == |ts|
  {
    if ts == [] then [] else [" " + ts[0]] + Spaced(ts[1..])
  }

  lemma {:induction false} SpacedAt(ts: seq<string>, i: nat)
    requires i < |ts|
    ensures Spaced(ts)[i] == " " + ts[i]
  {
    if i > 0 {
      SpacedAt(ts[1..], i - 1);
    }
  }

  lemma {:induction false} SpacedJoin(ts: seq<string>)
    requires |ts| >= 1
    ensures " " + Join(ts, ", ") == Join(Spaced(ts), ",")
  {
    if |ts| > 1 {
      SpacedJoin(ts[1..]);
      JoinCons(" " + ts[0], Spaced(ts[1..]), ",");
      JoinCons(ts[0], ts[1..], ", ");
      assert [ts[0]] + ts[1..] == ts;
      Regroup(" " + ts[0], Join(ts[1..], ", "), Join(Spaced(ts), ","), " " + Join(ts, ", "));
    }
  }

  lemma StripSpaced(t: string)
    ensures Strip(" " + t) == Strip(t)
  {
    assert (" " + t)[1..] == t;
  }

  /** The pieces between the commas of `Join(ts, ", ")`. */
  function CommaParts(ts: seq<string>): (r: seq<string>)
    requires |ts| >= 1
    ensures |r| == |ts| && r[0] == ts[0]
  {
    [ts[0]] + Spaced(ts[1..])
  }

  lemma CommaPartsAt(ts: seq<string>, i: nat)
    requires 0 < i < |ts|
    ensures CommaParts(ts)[i] == " " + ts[i]
  {
    SpacedAt(ts[1..], i - 1);
  }

  lemma Regroup(a: string, rest: string, x: string, y: string)
    requires x == a + "," + (" " + rest) && y == a + ", " + rest
    ensures x == y
  {
  }

  lemma CommaPartsJoin(ts: seq<string>)
    requires |ts| >= 1
    ensures Join(CommaParts(ts), ",") == Join(ts, ", ")
  {
    var head, rest := ts[0], ts[1..];
    assert CommaParts(ts) == [head] + Spaced(rest);
    assert [head] + rest == ts;
    if rest == [] {
      assert Spaced(rest) == [];
    } else {
      CommaJoinStep(head, rest);
    }
  }

  /** A piece in front of the spaced rest joins as the piece in front of
      the rest. */
  lemma CommaJoinStep(head: string, rest: seq<string>)
    requires rest != []
    ensures Join([head] + Spaced(rest), ",") == Join([head] + rest, ", ")
  {
    var joined := Join(rest, ", ");
    SpacedJoin(rest);
    JoinCons(head, Spaced(rest), ",");
    JoinCons(head, rest, ", ");
    Regroup(head, joined, Join([head] + Spaced(rest), ","), Join([head] + rest, ", "));
  }

  lemma CommaPartsFree(ts: seq<string>)
    requires |ts| >= 1
    requires forall i :: 0 <= i < |ts| ==> ',' !in ts[i]
    ensures forall p :: p in CommaParts(ts) ==> ',' !in p
  {
    var parts := CommaParts(ts);
    forall i | 0 <= i < |parts| ensures ',' !in parts[i] {
      if i > 0 {
        CommaPartsAt(ts, i);
      }
    }
  }

  lemma CommaPartsStrip(ts: seq<string>)
    requires |ts| >= 1
    requires forall i :: 0 <= i < |ts| ==> Strip(ts[i]) == ts[i]
    ensures StripAll(CommaParts(ts)) == ts
  {
    var r := StripAll(CommaParts(ts));
    forall i | 0 <= i < |ts| ensures r[i] == ts[i] {
      StripPartAt(ts, i);
    }
  }

  lemma StripPartAt(ts: seq<string>, i: nat)
    requires i < |ts| && Strip(ts[i]) == ts[i]
    ensures Strip(CommaParts(ts)[i]) == ts[i]
  {
    if i > 0 {
      CommaPartsAt(ts, i);
      StripSpaced(ts[i]);
    }
  }

  /** Entries joined by ", " split at the commas and stripped give the
      entries back. */
  lemma JoinCommaSpaceReadsBack(ts: seq<string>)
    requires |ts| >= 1
    requires forall e :: e in ts ==> ',' !in e && Strip(e) == e
    ensures CommaList(Join(ts, ", ")) == ts
  {
    forall i | 0 <= i < |ts| ensures ',' !in ts[i] && Strip(ts[i]) == ts[i] {
      assert ts[i] in ts;
    }
    CommaPartsJoin(ts);
    CommaPartsFree(ts);
    SplitJoin(CommaParts(ts), ',');
    CommaPartsStrip(ts);
  }

  /** Webhook delivery states. */
  datatype DeliveryStatus = Pending | Delivered | Failed | Retrying | Dropped

  datatype Delivery = Delivery(eventType: string, status: DeliveryStatus, attempts: nat, nextRetry: Option<int>)

  /** The update `retry_deliveries` applies to one delivery: a failed or
      dropped one is set to retry now, every other is left alone. */
  function Retried(now: int): Delivery -> Delivery {
    (d: Delivery) => if d.status == Failed || d.status == Dropped then d.(status := Retrying, nextRetry := Some(now)) else d
  }

  /** After the action no selected delivery is failed or dropped; the ones
      that were are due now; every other delivery, selected or not, is as
      it was. */
  lemma RetryLeavesNothingFailed(table: seq<Delivery>, selected: seq<nat>, now: int)
    requires Selection(|table|, selected)
    ensures var r := Updated(table, selected, Retried(now));
      |r| == |table| &&
      (forall i :: i in selected ==> r[i].status != Failed && r[i].status != Dropped) &&
      (forall i :: i in selected && (table[i].status == Failed || table[i].status == Dropped) ==>
        r[i] == table[i].(status := Retrying, nextRetry := Some(now))) &&
      (forall i :: 0 <= i < |table| && !(i in selected && (table[i].status == Failed || table[i].status == Dropped)) ==>
        r[i] == table[i])
  {
  }

  class DeliveryLog {
    var deliveries: seq<Delivery>

    constructor (deliveries: seq<Delivery>)
      ensures this.deliveries == deliveries
    {
      this.deliveries := deliveries;
    }

    /** `retry_deliveries` over the selected rows. */
    method RetryDeliveries(selected: seq<nat>, now: int)
      requires Selection(|deliveries|, selected)
      modifies this
      ensures deliveries == Updated(old(deliveries), selected, Retried(now))
    {
      deliveries := ForEachSelected(deliveries, selected, Retried(now));
    }
  }

  // -----------------------------------------------------------------------
  // Error log

  /** Who made a failed request: user name, client name, key name, and a
      token's user and client names. */
  datatype ErrorLog = ErrorLog(user: Option<string>, client: Option<string>, apiKey: Option<string>, token: Option<(string, string)>)

  /** `get_user_or_client`. */
  function UserOrClient(e: ErrorLog): string {
    if e.user.Some? then "User: " + e.user.value
    else if e.client.Some? then "Client: " + e.client.value
    else if e.apiKey.Some? then "API Key: " + e.apiKey.value
    else if e.token.Some? then "Token: " + e.token.value.0 + " (" + e.token.value.1 + ")"
    else "-"
  }

  /** The column names the first initiator present in the order user,
      client, key, token: its label tells which one was shown, and that
      one hides every later one. */
  lemma UserOrClientPriority(e: ErrorLog)
    ensures StartsWith(UserOrClient(e), "User: ") <==> e.user.Some?
    ensures StartsWith(UserOrClient(e), "Client: ") <==> e.user.None? && e.client.Some?
    ensures StartsWith(UserOrClient(e), "API Key: ") <==> e.user.None? && e.client.None? && e.apiKey.Some?
    ensures StartsWith(UserOrClient(e), "Token: ") <==> e.user.None? && e.client.None? && e.apiKey.None? && e.token.Some?
    ensures UserOrClient(e) == "-" <==> e.user.None? && e.client.None? && e.apiKey.None? && e.token.None?
  {
    var r := UserOrClient(e);
    if e.user.Some? {
      assert r[..6] == "User: ";
    } else if e.client.Some? {
      assert r[..8] == "Client: ";
    } else if e.apiKey.Some? {
      assert r[..9] == "API Key: ";
    } else if e.token.Some? {
      assert r[..7] == "Token: ";
    }
    LabelFirst(r, "User: ");
    LabelFirst(r, "Client: ");
    LabelFirst(r, "API Key: ");
    LabelFirst(r, "Token: ");
  }

  /** Text that starts with a label starts with the label's first
      character. */
  lemma LabelFirst(r: string, prefix: string)
    requires prefix != []
    ensures StartsWith(r, prefix) ==> r[0] == prefix[0]
  {
  }
}

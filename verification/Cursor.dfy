/**
 The signed position a reader carries from one page of recent activity to the
 next: a 77-byte record in the URL alphabet, authenticated under one of two keys
 and bound to what the reader may see.

 The authentication code is a parameter, any function to 32 bytes. Instants
 are nanoseconds since 1970 in UTC.
 */
module Cursor {
  import opened Options
  import opened Durations
  import opened Bytes
  import Base64
  import Groups

  type Word32 = n: nat | n < 0x1_0000_0000
  type Int64 = n: int | -TWO_63 <= n < TWO_63

  type Mac = (seq<Byte>, seq<Byte>) -> seq<Byte>

  ghost predicate IsMac(mac: Mac) {
    forall key, message :: |mac(key, message)| == 32
  }

  const RECORD_BYTES := 77
  const PAYLOAD_BYTES := 45
  const AUDIENCE_BYTES := 16
  const ENCODED_LENGTH := 103
  const MAXIMUM_AGE := 24 * HOUR
  const FUTURE_SKEW := 60 * SECOND

  /** The starts of the years 1 and 10000. */
  const FIRST_INSTANT := -62_135_596_800 * SECOND
  const END_OF_TIME := 253_402_300_800 * SECOND

  function Ascii(s: string): seq<Byte>
    requires forall i | 0 <= i < |s| :: s[i] < 128 as char
  {
    seq(|s|, i requires 0 <= i < |s| => s[i] as int)
  }

  const CURSOR_DOMAIN: seq<Byte> := Ascii("gotth-bb/activity-cursor/v1")
  const AUDIENCE_DOMAIN: seq<Byte> := Ascii("gotth-bb/activity-audience/v1")

  datatype Boundary = Boundary(createdAt: int, postID: Int64)

  datatype Key = Key(id: Word32, secret: seq<Byte>, notBefore: int, issueNotAfter: int)

  datatype Keyring = Keyring(active: Key, previous: Option<Key>)

  datatype Actor = Actor(authenticated: bool, userID: Int64, role: Byte, groupIDs: seq<Int64>)

  datatype AuthenticatedCursor = AuthenticatedCursor(boundary: Boundary, audience: seq<Byte>, keyID: Word32,
        secret: seq<Byte>, issuedAt: int, previous: bool, keyStart: int, keyEnd: int)

  predicate ValidMicrosecond(t: int) {
    FIRST_INSTANT <= t < END_OF_TIME && t % MICROSECOND == 0
  }

  predicate ValidSecond(t: int) {
    ValidMicrosecond(t) && t % SECOND == 0
  }

  predicate ValidKey(key: Key) {
    key.id != 0 && ValidSecond(key.notBefore) && ValidSecond(key.issueNotAfter) && key.notBefore <= key.issueNotAfter
  }

  predicate ValidActor(actor: Actor) {
    if !actor.authenticated then actor.userID == 0 && actor.role == 0 && actor.groupIDs == []
    else actor.userID > 0 && 1 <= actor.role <= 3 && forall i | 0 <= i < |actor.groupIDs| :: actor.groupIDs[i] > 0
  }

  /** The actors the server itself makes: valid, with strictly ascending groups. */
  predicate CanonicalActor(actor: Actor) {
    ValidActor(actor) && Groups.Ascending(actor.groupIDs)
  }

  function GroupBytes(groups: seq<Int64>): (s: seq<Byte>)
    ensures |s| == 8 * |groups|
  {
    if groups == [] then [] else GroupBytes(groups[..|groups| - 1]) + BigEndian(ToUnsigned(groups[|groups| - 1]), 8)
  }

  lemma {:induction false} GroupBytesMore(groups: seq<Int64>, i: nat)
    requires i < |groups|
    ensures GroupBytes(groups[..i + 1]) == GroupBytes(groups[..i]) + BigEndian(ToUnsigned(groups[i]), 8)
  {
    assert groups[..i + 1][..i] == groups[..i];
  }

  /** Who the actor is, before the groups. */
  function Identity(actor: Actor): (s: seq<Byte>)
    ensures |s| == 10
  {
    [if actor.authenticated then 1 else 0]
    + BigEndian(ToUnsigned(if actor.authenticated then actor.userID else 0), 8)
    + [if actor.authenticated then actor.role else 0]
  }

  function AudienceMessage(actor: Actor): seq<Byte> {
    AUDIENCE_DOMAIN + [1] + Identity(actor) + GroupBytes(actor.groupIDs)
  }

  ghost function AudienceDigest(mac: Mac, secret: seq<Byte>, actor: Actor): (r: Option<seq<Byte>>)
    requires IsMac(mac)
    ensures r.Some? ==> |r.value| == AUDIENCE_BYTES
  {
    if CanonicalActor(actor) then Some(mac(secret, AudienceMessage(actor))[..AUDIENCE_BYTES]) else None
  }

  /** The streamed form: the groups are checked in one pass and written in another. */
  method StreamAudience(mac: Mac, secret: seq<Byte>, actor: Actor) returns (r: Option<seq<Byte>>)
    requires IsMac(mac)
    ensures r == AudienceDigest(mac, secret, actor)
  {
    if !ValidActor(actor) {
      return None;
    }
    var ascending := Groups.CheckAscending(actor.groupIDs);
    if !ascending {
      return None;
    }
    var message: seq<Byte> := AUDIENCE_DOMAIN + [1];
    var authenticated: Byte, role: Byte, userID: Int64 := 0, 0, 0;
    if actor.authenticated {
      authenticated, userID, role := 1, actor.userID, actor.role;
    }
    var identity: seq<Byte> := [authenticated] + BigEndian(ToUnsigned(userID), 8) + [role];
    message := message + identity;
    ghost var head := message;
    for i := 0 to |actor.groupIDs|
      invariant message == head + GroupBytes(actor.groupIDs[..i])
    {
      hide BigEndian, ToUnsigned, Identity, GroupBytes;
      GroupBytesMore(actor.groupIDs, i);
      message := message + BigEndian(ToUnsigned(actor.groupIDs[i]), 8);
    }
    assert actor.groupIDs[..|actor.groupIDs|] == actor.groupIDs;
    return Some(mac(secret, message)[..AUDIENCE_BYTES]);
  }

  /** The signed part of a record. */
  function Payload(keyID: nat, issued: nat, created: nat, postID: nat, audience: seq<Byte>): seq<Byte> {
    [1] + BigEndian(keyID, 4) + BigEndian(issued, 8) + BigEndian(created, 8) + BigEndian(postID, 8) + audience
  }

  function Signed(mac: Mac, secret: seq<Byte>, payload: seq<Byte>): seq<Byte> {
    payload + mac(secret, CURSOR_DOMAIN + payload)
  }

  predicate MayIssue(ring: Keyring, now: int, boundary: Boundary) {
    && ValidKey(ring.active) && ValidMicrosecond(now) && ring.active.notBefore <= now <= ring.active.issueNotAfter
    && ValidMicrosecond(boundary.createdAt) && boundary.postID > 0
  }

  lemma {:induction false} TimesFit(t: int)
    requires ValidMicrosecond(t)
    ensures -TWO_63 <= t / SECOND < TWO_63 && -TWO_63 <= t / MICROSECOND < TWO_63
  {
  }

  ghost function RecordFor(mac: Mac, ring: Keyring, now: int, boundary: Boundary, audience: seq<Byte>): seq<Byte>
    requires MayIssue(ring, now, boundary)
  {
    TimesFit(now);
    TimesFit(boundary.createdAt);
    Signed(mac, ring.active.secret,
           Payload(ring.active.id, ToUnsigned(now / SECOND), ToUnsigned(boundary.createdAt / MICROSECOND),
                   ToUnsigned(boundary.postID), audience))
  }

  /** The text for a boundary, when one may be issued. */
  ghost function Issued(mac: Mac, ring: Keyring, now: int, boundary: Boundary, actor: Actor): Option<string>
    requires IsMac(mac)
  {
    if !MayIssue(ring, now, boundary) then None
    else match AudienceDigest(mac, ring.active.secret, actor)
      case None => None
      case Some(audience) => Some(Base64.Encode(RecordFor(mac, ring, now, boundary, audience)))
  }

  /** The record filled in place, field by field. */
  method EncodeCursor(mac: Mac, ring: Keyring, now: int, boundary: Boundary, actor: Actor) returns (r: Option<string>)
    requires IsMac(mac)
    ensures r == Issued(mac, ring, now, boundary, actor)
  {
    if !ValidKey(ring.active) || !ValidMicrosecond(now) || now < ring.active.notBefore
      || now > ring.active.issueNotAfter
       || !ValidMicrosecond(boundary.createdAt) || boundary.postID <= 0 {
      return None;
    }
    var audience := StreamAudience(mac, ring.active.secret, actor);
    if audience.None? {
      return None;
    }
    TimesFit(now);
    TimesFit(boundary.createdAt);
    var issued, created, post := ToUnsigned(now / SECOND), ToUnsigned(boundary.createdAt / MICROSECOND),
                                 ToUnsigned(boundary.postID);
    var record := new Byte[RECORD_BYTES](_ => 0);
    record[0] := 1;
    assert record[..1] == [1];
    Put(record, 1, 4, ring.active.id);
    Put(record, 5, 8, issued);
    Put(record, 13, 8, created);
    Put(record, 21, 8, post);
    Copy(record, 29, audience.value);
    ghost var payload := Payload(ring.active.id, issued, created, post, audience.value);
    assert record[..PAYLOAD_BYTES] == payload;
    var code := mac(ring.active.secret, CURSOR_DOMAIN + record[..PAYLOAD_BYTES]);
    Copy(record, PAYLOAD_BYTES, code);
    assert record[..] == payload + code == RecordFor(mac, ring, now, boundary, audience.value);
    return Some(Base64.Encode(record[..]));
  }

  function KeyFor(ring: Keyring, id: nat): Option<(Key, bool)> {
    if ring.active.id == id then Some((ring.active, false))
    else if ring.previous.Some? && ring.previous.value.id == id then Some((ring.previous.value, true))
    else None
  }

  lemma {:induction false} ValuesFit(bytes: seq<Byte>)
    ensures |bytes| == 4 ==> Value(bytes) < 0x1_0000_0000
    ensures |bytes| == 8 ==> Value(bytes) < TWO_64
  {
    WritesBack(bytes);
    Powers();
  }

  /** A record read back under a keyring. */
  function OpenRecord(mac: Mac, ring: Keyring, record: seq<Byte>): Option<AuthenticatedCursor>
    requires |record| == RECORD_BYTES
  {
    if record[0] != 1 then None
    else match KeyFor(ring, Value(record[1..5]))
      case None => None
      case Some((key, previous)) =>
        if !ValidKey(key)
          || record[PAYLOAD_BYTES..] != mac(key.secret, CURSOR_DOMAIN + record[..PAYLOAD_BYTES]) then None
        else
          ValuesFit(record[5..13]);
          ValuesFit(record[13..21]);
          ValuesFit(record[21..29]);
          var issuedAt := ToSigned(Value(record[5..13])) * SECOND;
          var createdAt := ToSigned(Value(record[13..21])) * MICROSECOND;
          var postID := ToSigned(Value(record[21..29]));
          if !ValidSecond(issuedAt) || !ValidMicrosecond(createdAt) || postID <= 0
             || issuedAt < key.notBefore || issuedAt > key.issueNotAfter then None
          else Some(AuthenticatedCursor(Boundary(createdAt, postID), record[29..PAYLOAD_BYTES], key.id, key.secret,
                           issuedAt, previous, key.notBefore, key.issueNotAfter))
  }

  function VerifyCursor(mac: Mac, ring: Keyring, text: string): Option<AuthenticatedCursor> {
    if |text| != ENCODED_LENGTH then None
    else match Base64.Decode(text)
      case None => None
      case Some(record) =>
        if |record| != RECORD_BYTES || Base64.Encode(record) != text then None else OpenRecord(mac, ring, record)
  }

  predicate BelongsTo(c: AuthenticatedCursor, ring: Keyring) {
    match KeyFor(ring, c.keyID)
    case None => false
    case Some((key, previous)) =>
      previous == c.previous && key.secret == c.secret && key.notBefore == c.keyStart && key.issueNotAfter == c.keyEnd
  }

  predicate ValidTime(c: AuthenticatedCursor, now: int) {
    && ValidMicrosecond(now) && ValidSecond(c.issuedAt)
    && c.issuedAt <= now + FUTURE_SKEW && Sub(now, c.issuedAt) <= MAXIMUM_AGE
    && !(c.previous && now > c.keyEnd + (MAXIMUM_AGE + FUTURE_SKEW))
  }

  ghost function BindAudience(mac: Mac, c: AuthenticatedCursor, actor: Actor): Option<Boundary>
    requires IsMac(mac)
  {
    if AudienceDigest(mac, c.secret, actor) == Some(c.audience) then Some(c.boundary) else None
  }

  // ---- Results ----

  lemma {:induction false} PayloadSlices(keyID: nat, issued: nat, created: nat, postID: nat, audience: seq<Byte>,
        code: seq<Byte>)
    requires |audience| == AUDIENCE_BYTES && |code| == 32
    ensures var r := Payload(keyID, issued, created, postID, audience) + code;
            && |r| == RECORD_BYTES && r[0] == 1 && r[1..5] == BigEndian(keyID, 4) && r[5..13] == BigEndian(issued, 8)
            && r[13..21] == BigEndian(created, 8) && r[21..29] == BigEndian(postID, 8)
            && r[29..PAYLOAD_BYTES] == audience
            && r[..PAYLOAD_BYTES] == Payload(keyID, issued, created, postID, audience) && r[PAYLOAD_BYTES..] == code
  {
  }

  /** The ring `later` still knows the key that `ring` issues under, as its active or as its previous one. */
  predicate Knows(later: Keyring, key: Key) {
    later.active == key || (later.active.id != key.id && later.previous == Some(key))
  }

  /** A record's fields read back as they were written. */
  lemma {:induction false} FieldsReadBack(keyID: Word32, issued: Int64, created: Int64, postID: Int64,
        audience: seq<Byte>, code: seq<Byte>)
    requires |audience| == AUDIENCE_BYTES && |code| == 32
    ensures var r := Payload(keyID, ToUnsigned(issued), ToUnsigned(created), ToUnsigned(postID), audience) + code;
            && |r| == RECORD_BYTES && Value(r[1..5]) == keyID && Value(r[5..13]) == ToUnsigned(issued)
            && Value(r[13..21]) == ToUnsigned(created) && Value(r[21..29]) == ToUnsigned(postID)
  {
    PayloadSlices(keyID, ToUnsigned(issued), ToUnsigned(created), ToUnsigned(postID), audience, code);
    Powers();
    ReadsBack(keyID, 4);
    ReadsBack(ToUnsigned(issued), 8);
    ReadsBack(ToUnsigned(created), 8);
    ReadsBack(ToUnsigned(postID), 8);
    hide Payload, BigEndian, Value, ToUnsigned, Power;
  }

  lemma {:induction false} WholeSecond(q: int)
    ensures (q * SECOND) % SECOND == 0
  {
    assert (q * 1_000_000_000) % 1_000_000_000 == 0;
  }

  lemma {:induction false} WholeMicroseconds(q: int)
    ensures (q * SECOND) % MICROSECOND == 0
  {
    assert q * 1_000_000_000 == q * 1_000_000 * 1_000;
    assert (q * 1_000_000 * 1_000) % 1_000 == 0;
  }

  lemma {:induction false} Quotients(start: int, t: int)
    requires start % SECOND == 0 && start <= t
    ensures start <= t / SECOND * SECOND <= t
  {
    var k, q := start / 1_000_000_000, t / 1_000_000_000;
    assert start == k * 1_000_000_000 && q * 1_000_000_000 <= t < (q + 1) * 1_000_000_000;
  }

  /** Rounding an instant down to its second keeps it valid and after every earlier whole second. */
  lemma {:induction false} SecondOf(t: int, start: int)
    requires ValidMicrosecond(t) && ValidSecond(start) && start <= t
    ensures ValidSecond(t / SECOND * SECOND) && start <= t / SECOND * SECOND <= t
    ensures t / MICROSECOND * MICROSECOND == t
  {
    WholeSecond(t / SECOND);
    WholeMicroseconds(t / SECOND);
    Quotients(start, t);
  }

  /** Opening a record whose fields and key are known. */
  lemma {:induction false} OpensTo(mac: Mac, ring: Keyring, r: seq<Byte>, key: Key, previous: bool, issued: Int64,
        created: Int64, postID: Int64)
    requires |r| == RECORD_BYTES && r[0] == 1 && KeyFor(ring, Value(r[1..5])) == Some((key, previous)) && ValidKey(key)
    requires r[PAYLOAD_BYTES..] == mac(key.secret, CURSOR_DOMAIN + r[..PAYLOAD_BYTES])
    requires Value(r[5..13]) == ToUnsigned(issued) && Value(r[13..21]) == ToUnsigned(created)
             && Value(r[21..29]) == ToUnsigned(postID)
    requires ValidSecond(issued * SECOND) && ValidMicrosecond(created * MICROSECOND) && postID > 0
    requires key.notBefore <= issued * SECOND <= key.issueNotAfter
    ensures OpenRecord(mac, ring, r)
            == Some(AuthenticatedCursor(Boundary(created * MICROSECOND, postID), r[29..PAYLOAD_BYTES], key.id,
                                        key.secret, issued * SECOND, previous, key.notBefore, key.issueNotAfter))
  {
    hide Value, KeyFor;
  }

  /** What was issued opens under any ring that still knows the key. */
  lemma {:induction false} RecordOpens(mac: Mac, ring: Keyring, later: Keyring, now: int, boundary: Boundary,
        audience: seq<Byte>)
    requires IsMac(mac) && MayIssue(ring, now, boundary) && |audience| == AUDIENCE_BYTES && Knows(later, ring.active)
    ensures var r, key := RecordFor(mac, ring, now, boundary, audience), ring.active;
            |r| == RECORD_BYTES
            && OpenRecord(mac, later, r)
               == Some(AuthenticatedCursor(boundary, audience, key.id, key.secret, now / SECOND * SECOND,
                                           later.active != key, key.notBefore, key.issueNotAfter))
  {
    SecondOf(now, ring.active.notBefore);
    assert boundary.createdAt / MICROSECOND * MICROSECOND == boundary.createdAt;
    TimesFit(now);
    TimesFit(boundary.createdAt);
    hide Payload, BigEndian, Value, Power, OpenRecord, ValidMicrosecond, ValidSecond, ToUnsigned;
    var key, issued: Int64, created: Int64 := ring.active, now / SECOND, boundary.createdAt / MICROSECOND;
    var payload := Payload(key.id, ToUnsigned(issued), ToUnsigned(created), ToUnsigned(boundary.postID), audience);
    var code := mac(key.secret, CURSOR_DOMAIN + payload);
    PayloadSlices(key.id, ToUnsigned(issued), ToUnsigned(created), ToUnsigned(boundary.postID), audience, code);
    FieldsReadBack(key.id, issued, created, boundary.postID, audience, code);
    OpensTo(mac, later, payload + code, key, later.active != key, issued, created, boundary.postID);
  }

  /**
   Issuing, verifying and binding: the boundary comes back to the actor it was issued
   to, under the ring that issued it and after its key has become the previous one,
   and the recorded time is the issuing time to the second.
   */
  lemma {:induction false} RoundTrip(mac: Mac, ring: Keyring, later: Keyring, now: int, boundary: Boundary,
        actor: Actor)
    requires IsMac(mac) && Issued(mac, ring, now, boundary, actor).Some? && Knows(later, ring.active)
    ensures var text := Issued(mac, ring, now, boundary, actor).value; var c := VerifyCursor(mac, later, text);
            && |text| == ENCODED_LENGTH && c.Some? && BindAudience(mac, c.value, actor) == Some(boundary)
            && c.value.issuedAt <= now < c.value.issuedAt + SECOND && BelongsTo(c.value, later)
  {
    var audience := AudienceDigest(mac, ring.active.secret, actor).value;
    RecordOpens(mac, ring, later, now, boundary, audience);
    var record := RecordFor(mac, ring, now, boundary, audience);
    Base64.RoundTrip(record);
    Base64.EncodeIsLetters(record);
    hide RecordFor, OpenRecord, AudienceDigest;
  }

  /** Exactly when a boundary can be issued. */
  lemma {:induction false} IssuesExactly(mac: Mac, ring: Keyring, now: int, boundary: Boundary, actor: Actor)
    requires IsMac(mac)
    ensures Issued(mac, ring, now, boundary, actor).Some? <==> MayIssue(ring, now, boundary) && CanonicalActor(actor)
  {
  }

  /** The record that a cursor stands for. */
  function RecordOf(mac: Mac, c: AuthenticatedCursor): seq<Byte>
    requires ValidMicrosecond(c.issuedAt) && ValidMicrosecond(c.boundary.createdAt)
  {
    TimesFit(c.issuedAt);
    TimesFit(c.boundary.createdAt);
    Signed(mac, c.secret,
           Payload(c.keyID, ToUnsigned(c.issuedAt / SECOND), ToUnsigned(c.boundary.createdAt / MICROSECOND),
                   ToUnsigned(c.boundary.postID), c.audience))
  }

  lemma {:induction false} OpenedRecord(mac: Mac, ring: Keyring, record: seq<Byte>)
    requires |record| == RECORD_BYTES && OpenRecord(mac, ring, record).Some?
    ensures var c := OpenRecord(mac, ring, record).value;
            && ValidSecond(c.issuedAt) && ValidMicrosecond(c.boundary.createdAt) && BelongsTo(c, ring)
            && c.keyStart <= c.issuedAt <= c.keyEnd && RecordOf(mac, c) == record
  {
    var c := OpenRecord(mac, ring, record).value;
    WritesBack(record[1..5]);
    WritesBack(record[5..13]);
    WritesBack(record[13..21]);
    WritesBack(record[21..29]);
    ValuesFit(record[5..13]);
    ValuesFit(record[13..21]);
    ValuesFit(record[21..29]);
    assert c.issuedAt / SECOND == ToSigned(Value(record[5..13]));
    assert c.boundary.createdAt / MICROSECOND == ToSigned(Value(record[13..21]));
    SevenParts(record);
  }

  lemma {:induction false} SevenParts(record: seq<Byte>)
    requires |record| == RECORD_BYTES && record[0] == 1
    ensures [1] + record[1..5] + record[5..13] + record[13..21] + record[21..29] + record[29..PAYLOAD_BYTES]
            == record[..PAYLOAD_BYTES]
    ensures record[..PAYLOAD_BYTES] + record[PAYLOAD_BYTES..] == record
  {
  }

  /** An accepted text is the one encoding of what it verifies to, so no two texts verify to the same cursor. */
  lemma {:induction false} VerifiedTextIsUnique(mac: Mac, ring: Keyring, text: string)
    requires VerifyCursor(mac, ring, text).Some?
    ensures var c := VerifyCursor(mac, ring, text).value;
            && ValidSecond(c.issuedAt) && ValidMicrosecond(c.boundary.createdAt) && BelongsTo(c, ring)
            && c.keyStart <= c.issuedAt <= c.keyEnd && text == Base64.Encode(RecordOf(mac, c))
  {
    OpenedRecord(mac, ring, Base64.Decode(text).value);
  }

  /** The retirement of the previous key adds nothing to the age limit: what it would refuse is too old already. */
  lemma {:induction false} RetirementIsImplied(mac: Mac, ring: Keyring, text: string, now: int)
    requires VerifyCursor(mac, ring, text).Some?
    ensures var c := VerifyCursor(mac, ring, text).value;
            ValidTime(c, now) <==> ValidMicrosecond(now) && c.issuedAt - FUTURE_SKEW <= now <= c.issuedAt + MAXIMUM_AGE
  {
    VerifiedTextIsUnique(mac, ring, text);
  }

  lemma {:induction false} ValueInjective(a: Int64, b: Int64)
    requires BigEndian(ToUnsigned(a), 8) == BigEndian(ToUnsigned(b), 8)
    ensures a == b
  {
    Powers();
    ReadsBack(ToUnsigned(a), 8);
    ReadsBack(ToUnsigned(b), 8);
    assert ToSigned(ToUnsigned(a)) == a && ToSigned(ToUnsigned(b)) == b;
  }

  lemma {:induction false} GroupBytesInjective(a: seq<Int64>, b: seq<Int64>)
    requires GroupBytes(a) == GroupBytes(b)
    ensures a == b
  {
    if a != [] && b != [] {
      var m, n := |a| - 1, |b| - 1;
      var x, y := BigEndian(ToUnsigned(a[m]), 8), BigEndian(ToUnsigned(b[n]), 8);
      assert GroupBytes(a)[..8 * m] == GroupBytes(a[..m]) && GroupBytes(a)[8 * m..] == x;
      assert GroupBytes(b)[..8 * n] == GroupBytes(b[..n]) && GroupBytes(b)[8 * n..] == y;
      GroupBytesInjective(a[..m], b[..n]);
      ValueInjective(a[m], b[n]);
      assert a == a[..m] + [a[m]] && b == b[..n] + [b[n]];
    }
  }

  lemma {:induction false} IdentityInjective(a: Actor, b: Actor)
    requires ValidActor(a) && ValidActor(b) && Identity(a) == Identity(b)
    ensures a.authenticated == b.authenticated && a.userID == b.userID && a.role == b.role
  {
    assert Identity(a)[0] == Identity(b)[0] && Identity(a)[9] == Identity(b)[9];
    assert Identity(a)[1..9] == BigEndian(ToUnsigned(a.userID), 8)
           && Identity(b)[1..9] == BigEndian(ToUnsigned(b.userID), 8);
    ValueInjective(a.userID, b.userID);
  }

  /** Different valid actors are signed as different messages. */
  lemma {:induction false} AudienceIsInjective(a: Actor, b: Actor)
    requires ValidActor(a) && ValidActor(b) && AudienceMessage(a) == AudienceMessage(b)
    ensures a == b
  {
    var k := |AUDIENCE_DOMAIN + [1]|;
    assert AudienceMessage(a)[k..k + 10] == Identity(a) && AudienceMessage(b)[k..k + 10] == Identity(b);
    assert AudienceMessage(a)[k + 10..] == GroupBytes(a.groupIDs)
           && AudienceMessage(b)[k + 10..] == GroupBytes(b.groupIDs);
    IdentityInjective(a, b);
    GroupBytesInjective(a.groupIDs, b.groupIDs);
  }
}

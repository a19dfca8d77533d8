/** services/audit.py: the hash-chained audit log. SHA-256 (FIPS 180-4) is a parameter, known only to
    give 64-character digests without a colon; where collisions matter, results say so. The ISO
    rendering of a naive timestamp is a parameter too. */
module Audit {
  import opened Base
  import opened Json

  type Digest = string -> string

  type Iso = int -> string

  ghost predicate HexDigests(sha: Digest) { forall s :: |sha(s)| == 64 && ':' !in sha(s) }

  ghost predicate Collision(sha: Digest, x: string, y: string) { x != y && sha(x) == sha(y) }

  // ---------------------------------------------------------------------------------------------
  // Timestamps.
  // ---------------------------------------------------------------------------------------------

  /** A wall-clock reading in microseconds, with its UTC offset when the value is aware. */
  datatype DateTime = DateTime(local: int, offset: Option<int>)

  function UtcNow(instant: int): DateTime { DateTime(instant, Some(0)) }

  /** _ts: aware values are moved to UTC, naive ones taken as they are. */
  function Ts(dt: DateTime, iso: Iso): string {
    iso(if dt.offset.Some? then dt.local - dt.offset.value else dt.local)
  }

  /** An instant hashes alike in whatever zone its clock is read. */
  lemma TsIsTheInstant(instant: int, offset: int, iso: Iso)
    ensures Ts(DateTime(instant + offset, Some(offset)), iso) == Ts(UtcNow(instant), iso) == iso(instant)
  {
  }

  /** What the store gives back: the same reading without its offset. */
  function Stored(dt: DateTime): DateTime { dt.(offset := None) }

  /** The hashed timestamp survives storage exactly for naive and UTC values, which is what utcnow
      supplies. */
  lemma {:induction false} TsSurvivesStorage(dt: DateTime, iso: Iso)
    requires forall m, n :: iso(m) == iso(n) ==> m == n
    ensures Ts(Stored(dt), iso) == Ts(dt, iso) <==> dt.offset.None? || dt.offset.value == 0
  {
    if dt.offset.Some? {
      var m, n := dt.local, dt.local - dt.offset.value;
      assert iso(m) == iso(n) ==> m == n;
    }
  }

  // ---------------------------------------------------------------------------------------------
  // Rows and their hashes.
  // ---------------------------------------------------------------------------------------------

  /** The fields that enter the hash. */
  datatype Content = Content(
    userId: string, action: string, resourceType: string, resourceId: string,
    success: bool, detail: Fields, createdAt: string)

  datatype Row = Row(
    userId: string, action: string, resourceType: string, resourceId: string,
    success: bool, detail: Fields, createdAt: DateTime, prevHash: string, entryHash: string)

  function ContentOf(row: Row, iso: Iso): Content {
    Content(row.userId, row.action, row.resourceType, row.resourceId, row.success, row.detail, Ts(row.createdAt, iso))
  }

  function ContentFields(c: Content): Fields {
    Field("action", Str(c.action),
    Field("created_at", Str(c.createdAt),
    Field("detail", Obj(c.detail),
    Field("resource_id", Str(c.resourceId),
    Field("resource_type", Str(c.resourceType),
    Field("success", Bool(c.success),
    Field("user_id", Str(c.userId), NoFields)))))))
  }

  /** The hashed string: previous hash, colon, JSON payload. */
  function Preimage(prev: string, c: Content): string { prev + ":" + Text(Obj(ContentFields(c))) }

  function EntryHash(sha: Digest, prev: string, c: Content): string { sha(Preimage(prev, c)) }

  lemma {:induction false} SameLength(a: string, r: string, b: string, q: string)
    requires |a| == |b| && a + r == b + q
    ensures a == b && r == q
  {
    assert a == (a + r)[..|a|] && b == (b + q)[..|a|];
    assert r == (a + r)[|a|..] && q == (b + q)[|a|..];
  }

  lemma {:induction false} ColonSplits(p: string, q: string, a: string, b: string)
    requires ':' !in p && ':' !in q && p + ":" + a == q + ":" + b
    ensures p == q && a == b
    decreases |p|
  {
    assert p + ":" + a == if p == "" then ":" + a else [p[0]] + (p[1..] + ":" + a);
    assert q + ":" + b == if q == "" then ":" + b else [q[0]] + (q[1..] + ":" + b);
    if p != "" && q != "" {
      SameLength([p[0]], p[1..] + ":" + a, [q[0]], q[1..] + ":" + b);
      ColonSplits(p[1..], q[1..], a, b);
    } else if p == q {
      SameLength(":", a, ":", b);
    }
  }

  /** The hashed string determines the previous hash and every hashed field. */
  lemma {:induction false} PreimageInjective(prev: string, prev': string, c: Content, c': Content)
    requires ':' !in prev && ':' !in prev' && ProperFields(c.detail) && ProperFields(c'.detail)
    requires Preimage(prev, c) == Preimage(prev', c')
    ensures prev == prev' && c == c'
  {
    var v, v' := Obj(ContentFields(c)), Obj(ContentFields(c'));
    ColonSplits(prev, prev', Text(v), Text(v'));
    assert Text(v) + "" == Text(v') + "";
    ContentProper(c);
    ContentProper(c');
    TextInjective(v, v', "", "");
  }

  lemma {:induction false} ContentProper(c: Content)
    requires ProperFields(c.detail)
    ensures Proper(Obj(ContentFields(c)))
  {
    var user := Field("user_id", Str(c.userId), NoFields);
    ProperField("user_id", Str(c.userId), NoFields);
    var success := Field("success", Bool(c.success), user);
    ProperField("success", Bool(c.success), user);
    var resourceType := Field("resource_type", Str(c.resourceType), success);
    ProperField("resource_type", Str(c.resourceType), success);
    var resourceId := Field("resource_id", Str(c.resourceId), resourceType);
    ProperField("resource_id", Str(c.resourceId), resourceType);
    var detail := Field("detail", Obj(c.detail), resourceId);
    ProperField("detail", Obj(c.detail), resourceId);
    ProperField("created_at", Str(c.createdAt), detail);
    ProperField("action", Str(c.action), Field("created_at", Str(c.createdAt), detail));
  }

  lemma ProperField(key: string, value: Value, rest: Fields)
    requires Proper(value) && (rest.NoFields? || ProperFields(rest))
    ensures ProperFields(Field(key, value, rest))
  {
  }

  // ---------------------------------------------------------------------------------------------
  // What is hashed, said without the encoder.
  // ---------------------------------------------------------------------------------------------

  /** The value under a key: the first one down the list. */
  function At(fields: Fields, key: string): Option<Value> {
    match fields
    case NoFields => None
    case Field(k, value, rest) => if k == key then Some(value) else At(rest, key)
  }

  /** The order of strings by character codes: at their first difference, or one begins the other. */
  ghost predicate Before(a: string, b: string) { a < b || exists n :: DifferAt(a, b, n) }

  predicate DifferAt(a: string, b: string, n: int) { 0 <= n < |a| && n < |b| && a[..n] == b[..n] && a[n] < b[n] }

  /** Each key is before the next, as sort_keys orders them. */
  ghost predicate Ascending(fields: Fields) {
    fields.Field? && fields.rest.Field? ==> Before(fields.key, fields.rest.key) && Ascending(fields.rest)
  }

  /** The payload has the seven fields, each under its own key. */
  lemma {:induction false} PayloadFieldsAre(c: Content)
    ensures At(ContentFields(c), "user_id") == Some(Str(c.userId))
    ensures At(ContentFields(c), "action") == Some(Str(c.action))
    ensures At(ContentFields(c), "resource_type") == Some(Str(c.resourceType))
    ensures At(ContentFields(c), "resource_id") == Some(Str(c.resourceId))
    ensures At(ContentFields(c), "success") == Some(Bool(c.success))
    ensures At(ContentFields(c), "detail") == Some(Obj(c.detail))
    ensures At(ContentFields(c), "created_at") == Some(Str(c.createdAt))
  {
    KeysDiffer();
    var user := Field("user_id", Str(c.userId), NoFields);
    var success := Field("success", Bool(c.success), user);
    var kind := Field("resource_type", Str(c.resourceType), success);
    var id := Field("resource_id", Str(c.resourceId), kind);
    var detail := Field("detail", Obj(c.detail), id);
    var created := Field("created_at", Str(c.createdAt), detail);
    assert ContentFields(c) == Field("action", Str(c.action), created);
    assert At(user, "user_id") == At(success, "user_id") == At(kind, "user_id") == At(id, "user_id")
        == At(detail, "user_id") == At(created, "user_id");
    assert At(success, "success") == At(kind, "success") == At(id, "success") == At(detail, "success")
        == At(created, "success");
    assert At(kind, "resource_type") == At(id, "resource_type") == At(detail, "resource_type")
        == At(created, "resource_type");
    assert At(id, "resource_id") == At(detail, "resource_id") == At(created, "resource_id");
    assert At(detail, "detail") == At(created, "detail");
  }

  lemma {:induction false} KeysDiffer()
    ensures "action" != "detail" && "success" != "user_id"
  {
    assert "action"[0] != "detail"[0] && "success"[0] != "user_id"[0];
  }

  /** It has no other key. */
  lemma {:induction false} PayloadKeysAre(c: Content, key: string)
    requires At(ContentFields(c), key).Some?
    ensures || key == "action" || key == "created_at" || key == "detail" || key == "resource_id"
            || key == "resource_type" || key == "success" || key == "user_id"
  {
    var user := Field("user_id", Str(c.userId), NoFields);
    var success := Field("success", Bool(c.success), user);
    var kind := Field("resource_type", Str(c.resourceType), success);
    var id := Field("resource_id", Str(c.resourceId), kind);
    var detail := Field("detail", Obj(c.detail), id);
    var created := Field("created_at", Str(c.createdAt), detail);
    assert At(NoFields, key).None?;
    assert At(user, key).Some? ==> key == "user_id";
    assert At(success, key).Some? ==> key == "success" || At(user, key).Some?;
    assert At(kind, key).Some? ==> key == "resource_type" || At(success, key).Some?;
    assert At(id, key).Some? ==> key == "resource_id" || At(kind, key).Some?;
    assert At(detail, key).Some? ==> key == "detail" || At(id, key).Some?;
    assert At(created, key).Some? ==> key == "created_at" || At(detail, key).Some?;
  }

  /** Its keys are written in ascending order. */
  lemma {:induction false} PayloadKeysAscend(c: Content)
    ensures Ascending(ContentFields(c))
  {
    var user := Field("user_id", Str(c.userId), NoFields);
    var success := Field("success", Bool(c.success), user);
    var kind := Field("resource_type", Str(c.resourceType), success);
    var id := Field("resource_id", Str(c.resourceId), kind);
    var detail := Field("detail", Obj(c.detail), id);
    var created := Field("created_at", Str(c.createdAt), detail);
    KeysAscend();
    Ascends("success", Bool(c.success), user);
    Ascends("resource_type", Str(c.resourceType), success);
    Ascends("resource_id", Str(c.resourceId), kind);
    Ascends("detail", Obj(c.detail), id);
    Ascends("created_at", Str(c.createdAt), detail);
    Ascends("action", Str(c.action), created);
  }

  lemma {:induction false} Ascends(key: string, value: Value, rest: Fields)
    requires rest.Field? && Before(key, rest.key) && Ascending(rest)
    ensures Ascending(Field(key, value, rest))
  {
  }

  lemma {:induction false} KeysAscend()
    ensures Before("action", "created_at") && Before("created_at", "detail") && Before("detail", "resource_id")
    ensures Before("resource_id", "resource_type")
    ensures Before("resource_type", "success") && Before("success", "user_id")
  {
    assert DifferAt("action", "created_at", 0);
    assert DifferAt("created_at", "detail", 0);
    assert DifferAt("detail", "resource_id", 0);
    assert "resource_id"[..9] == "resource_" == "resource_type"[..9];
    assert DifferAt("resource_id", "resource_type", 9);
    assert DifferAt("resource_type", "success", 0);
    assert DifferAt("success", "user_id", 0);
  }

  function Member(key: string, text: string, after: string): string { "\"" + key + "\": " + (text + after) }

  /** The payload after its opening brace, piece by piece. */
  function PayloadTail(c: Content): string {
    Member("action", Text(Str(c.action)), ", " +
    Member("created_at", Text(Str(c.createdAt)), ", " +
    Member("detail", Text(Obj(c.detail)), ", " +
    Member("resource_id", Text(Str(c.resourceId)), ", " +
    Member("resource_type", Text(Str(c.resourceType)), ", " +
    Member("success", if c.success then "true" else "false", ", " +
    Member("user_id", Text(Str(c.userId)), "}")))))))
  }

  lemma {:induction false} PayloadTailIs(c: Content)
    ensures FieldsTail(ContentFields(c)) == PayloadTail(c)
  {
    KeysArePlain();
    SevenFields("action", Str(c.action), "created_at", Str(c.createdAt), "detail", Obj(c.detail),
      "resource_id", Str(c.resourceId), "resource_type", Str(c.resourceType), "success", Bool(c.success),
      "user_id", Str(c.userId));
  }

  /** The hashed string is the previous hash, a colon, and that payload. */
  lemma {:induction false} PreimageIs(prev: string, c: Content)
    ensures Preimage(prev, c) == prev + ":" + ("{" + PayloadTail(c))
  {
    PayloadTailIs(c);
  }

  lemma {:induction false} SevenFields(k1: string, v1: Value, k2: string, v2: Value, k3: string, v3: Value,
      k4: string, v4: Value, k5: string, v5: Value, k6: string, v6: Value, k7: string, v7: Value)
    requires PlainKey(k1) && PlainKey(k2) && PlainKey(k3) && PlainKey(k4)
    requires PlainKey(k5) && PlainKey(k6) && PlainKey(k7)
    ensures FieldsTail(Field(k1, v1, Field(k2, v2, Field(k3, v3, Field(k4, v4, Field(k5, v5, Field(k6, v6,
              Field(k7, v7, NoFields))))))))
         == Member(k1, Text(v1), ", " + Member(k2, Text(v2), ", " + Member(k3, Text(v3), ", " + Member(k4, Text(v4),
              ", " + Member(k5, Text(v5), ", " + Member(k6, Text(v6), ", " + Member(k7, Text(v7), "}")))))))
  {
    var f7 := Field(k7, v7, NoFields);
    var f6 := Field(k6, v6, f7);
    var f5 := Field(k5, v5, f6);
    var f4 := Field(k4, v4, f5);
    var f3 := Field(k3, v3, f4);
    var f2 := Field(k2, v2, f3);
    PlainField(k7, v7, NoFields);
    PlainMember(k6, v6, f7, FieldsTail(f7));
    PlainMember(k5, v5, f6, FieldsTail(f6));
    PlainMember(k4, v4, f5, FieldsTail(f5));
    PlainMember(k3, v3, f4, FieldsTail(f4));
    PlainMember(k2, v2, f3, FieldsTail(f3));
    PlainMember(k1, v1, f2, FieldsTail(f2));
  }

  lemma {:induction false} PlainMember(key: string, value: Value, rest: Fields, after: string)
    requires PlainKey(key) && rest.Field? && FieldsTail(rest) == after
    ensures FieldsTail(Field(key, value, rest)) == Member(key, Text(value), ", " + after)
  {
    PlainField(key, value, rest);
  }

  predicate PlainKey(key: string) { forall x :: x in key ==> Plain(x) }

  lemma {:induction false} KeysArePlain()
    ensures PlainKey("action") && PlainKey("created_at") && PlainKey("detail") && PlainKey("resource_id")
    ensures PlainKey("resource_type") && PlainKey("success") && PlainKey("user_id")
  {
  }

  lemma {:induction false} PlainField(key: string, value: Value, rest: Fields)
    requires PlainKey(key)
    ensures FieldsTail(Field(key, value, rest)) == Member(key, Text(value), MoreFields(rest))
  {
    PlainTextIsLiteral(key);
  }

  /** What is hashed can be read back: the payload is a JSON text of exactly these fields. */
  lemma {:induction false} PayloadReadBack(prev: string, c: Content)
    requires ProperFields(c.detail)
    ensures Preimage(prev, c)[|prev|] == ':'
    ensures ReadValue(Preimage(prev, c)[|prev| + 1..]) == Some((Obj(ContentFields(c)), ""))
  {
    var text := Text(Obj(ContentFields(c)));
    ContentProper(c);
    assert Preimage(prev, c)[|prev| + 1..] == text == text + "";
    TextReadBack(Obj(ContentFields(c)), "");
  }

  // ---------------------------------------------------------------------------------------------
  // The verifier.
  // ---------------------------------------------------------------------------------------------

  /** The chain head: the last row's hash, or the empty string. */
  function Head(rows: seq<Row>): string { if rows == [] then "" else rows[|rows| - 1].entryHash }

  /** The hash the row at position i must link to. */
  function HeadBefore(rows: seq<Row>, i: nat): string
    requires i <= |rows|
  {
    if i == 0 then "" else rows[i - 1].entryHash
  }

  /** Each row links to the one before and carries the hash of that link and its own content. */
  ghost predicate Intact(sha: Digest, iso: Iso, rows: seq<Row>) {
    forall i {:trigger HeadBefore(rows, i)} :: 0 <= i < |rows| ==> Linked(sha, iso, rows[i], HeadBefore(rows, i))
  }

  predicate Linked(sha: Digest, iso: Iso, row: Row, prev: string) {
    row.prevHash == prev && row.entryHash == EntryHash(sha, prev, ContentOf(row, iso))
  }

  method VerifyChain(sha: Digest, iso: Iso, rows: seq<Row>) returns (ok: bool)
    ensures ok <==> Intact(sha, iso, rows)
  {
    var prev := "";
    for i := 0 to |rows|
      invariant prev == HeadBefore(rows, i)
      invariant forall k {:trigger HeadBefore(rows, k)} :: 0 <= k < i ==> Linked(sha, iso, rows[k], HeadBefore(rows, k))
    {
      var row := rows[i];
      if row.prevHash != prev || row.entryHash != EntryHash(sha, prev, ContentOf(row, iso)) {
        return false;
      }
      prev := row.entryHash;
    }
    return true;
  }

  lemma {:induction false} IntactPrefix(sha: Digest, iso: Iso, rows: seq<Row>, k: nat)
    requires Intact(sha, iso, rows) && k <= |rows|
    ensures Intact(sha, iso, rows[..k]) && Head(rows[..k]) == HeadBefore(rows, k)
  {
    forall i {:trigger HeadBefore(rows[..k], i)} | 0 <= i < k
      ensures Linked(sha, iso, rows[..k][i], HeadBefore(rows[..k], i))
    {
      PrefixRow(rows, k, i);
      assert Linked(sha, iso, rows[i], HeadBefore(rows, i));
    }
  }

  lemma PrefixRow(rows: seq<Row>, k: nat, i: nat)
    requires i < k <= |rows|
    ensures rows[..k][i] == rows[i] && HeadBefore(rows[..k], i) == HeadBefore(rows, i)
  {
  }

  // ---------------------------------------------------------------------------------------------
  // The head binds the whole trail.
  // ---------------------------------------------------------------------------------------------

  ghost predicate ProperRows(rows: seq<Row>) { forall i :: 0 <= i < |rows| ==> ProperFields(rows[i].detail) }

  ghost predicate SameContents(iso: Iso, a: seq<Row>, b: seq<Row>) {
    |a| == |b| && forall i :: 0 <= i < |a| ==> ContentOf(a[i], iso) == ContentOf(b[i], iso)
  }

  function RowPreimage(rows: seq<Row>, i: nat, iso: Iso): string
    requires i < |rows|
  {
    Preimage(HeadBefore(rows, i), ContentOf(rows[i], iso))
  }

  /** Two of the strings hashed in the trails collide. */
  ghost predicate CollisionAmong(sha: Digest, iso: Iso, a: seq<Row>, b: seq<Row>) {
    exists i: nat, j: nat :: i < |a| && j < |b| && Collision(sha, RowPreimage(a, i, iso), RowPreimage(b, j, iso))
  }

  lemma {:induction false} LastRow(sha: Digest, iso: Iso, rows: seq<Row>)
    requires HexDigests(sha) && Intact(sha, iso, rows) && rows != []
    ensures var n := |rows| - 1;
      Head(rows) == sha(RowPreimage(rows, n, iso)) && |Head(rows)| == 64 && ':' !in HeadBefore(rows, n)
  {
    var n := |rows| - 1;
    assert Linked(sha, iso, rows[n], HeadBefore(rows, n));
    if n > 0 {
      assert Linked(sha, iso, rows[n - 1], HeadBefore(rows, n - 1));
    }
  }

  lemma {:induction false} CollisionInPrefix(sha: Digest, iso: Iso, a: seq<Row>, b: seq<Row>, m: nat, n: nat)
    requires m <= |a| && n <= |b| && CollisionAmong(sha, iso, a[..m], b[..n])
    ensures CollisionAmong(sha, iso, a, b)
  {
    var i: nat, j: nat :| i < m && j < n && Collision(sha, RowPreimage(a[..m], i, iso), RowPreimage(b[..n], j, iso));
    assert RowPreimage(a, i, iso) == RowPreimage(a[..m], i, iso);
    assert RowPreimage(b, j, iso) == RowPreimage(b[..n], j, iso);
  }

  lemma {:induction false} SameContentsSnoc(iso: Iso, a: seq<Row>, b: seq<Row>)
    requires a != [] && b != [] && SameContents(iso, a[..|a| - 1], b[..|b| - 1])
    requires ContentOf(a[|a| - 1], iso) == ContentOf(b[|b| - 1], iso)
    ensures SameContents(iso, a, b)
  {
    var m := |a| - 1;
    assert forall i :: 0 <= i < m ==> ContentOf(a[..m][i], iso) == ContentOf(b[..m][i], iso);
  }

  /** Main result: intact trails with the same head agree row by row in every hashed field, unless
      two of the strings they hash collide. So an edited, reordered, shortened or extended trail that
      keeps the last row's hash does not verify. */
  lemma {:induction false} HeadBindsTrail(sha: Digest, iso: Iso, a: seq<Row>, b: seq<Row>)
    requires HexDigests(sha) && ProperRows(a) && ProperRows(b)
    requires Intact(sha, iso, a) && Intact(sha, iso, b) && Head(a) == Head(b)
    ensures SameContents(iso, a, b) || CollisionAmong(sha, iso, a, b)
    decreases |a|
  {
    if a != [] {
      LastRow(sha, iso, a);
    }
    if b != [] {
      LastRow(sha, iso, b);
    }
    if a != [] && b != [] {
      var m, n := |a| - 1, |b| - 1;
      SameLastRow(sha, iso, a, b);
      if Collision(sha, RowPreimage(a, m, iso), RowPreimage(b, n, iso)) {
        assert CollisionAmong(sha, iso, a, b);
      } else {
        IntactPrefix(sha, iso, a, m);
        IntactPrefix(sha, iso, b, n);
        HeadBindsTrail(sha, iso, a[..m], b[..n]);
        ExtendAgreement(sha, iso, a, b);
      }
    }
  }

  lemma {:induction false} ExtendAgreement(sha: Digest, iso: Iso, a: seq<Row>, b: seq<Row>)
    requires a != [] && b != [] && ContentOf(a[|a| - 1], iso) == ContentOf(b[|b| - 1], iso)
    requires SameContents(iso, a[..|a| - 1], b[..|b| - 1]) || CollisionAmong(sha, iso, a[..|a| - 1], b[..|b| - 1])
    ensures SameContents(iso, a, b) || CollisionAmong(sha, iso, a, b)
  {
    if CollisionAmong(sha, iso, a[..|a| - 1], b[..|b| - 1]) {
      CollisionInPrefix(sha, iso, a, b, |a| - 1, |b| - 1);
    } else {
      SameContentsSnoc(iso, a, b);
    }
  }

  lemma {:induction false} SameLastRow(sha: Digest, iso: Iso, a: seq<Row>, b: seq<Row>)
    requires HexDigests(sha) && ProperRows(a) && ProperRows(b) && a != [] && b != []
    requires Intact(sha, iso, a) && Intact(sha, iso, b) && Head(a) == Head(b)
    ensures var m, n := |a| - 1, |b| - 1;
      || Collision(sha, RowPreimage(a, m, iso), RowPreimage(b, n, iso))
      || (HeadBefore(a, m) == HeadBefore(b, n) && ContentOf(a[m], iso) == ContentOf(b[n], iso))
  {
    var m, n := |a| - 1, |b| - 1;
    LastRow(sha, iso, a);
    LastRow(sha, iso, b);
    if RowPreimage(a, m, iso) == RowPreimage(b, n, iso) {
      PreimageInjective(HeadBefore(a, m), HeadBefore(b, n), ContentOf(a[m], iso), ContentOf(b[n], iso));
    }
  }

  /** Conversely the contents determine the head, with no assumption on the hash. */
  lemma {:induction false} ContentsDetermineHead(sha: Digest, iso: Iso, a: seq<Row>, b: seq<Row>)
    requires Intact(sha, iso, a) && Intact(sha, iso, b) && SameContents(iso, a, b)
    ensures Head(a) == Head(b)
    decreases |a|
  {
    if a != [] {
      var n := |a| - 1;
      IntactPrefix(sha, iso, a, n);
      IntactPrefix(sha, iso, b, n);
      ContentsDetermineHead(sha, iso, a[..n], b[..n]);
      assert Linked(sha, iso, a[n], HeadBefore(a, n)) && Linked(sha, iso, b[n], HeadBefore(b, n));
    }
  }

  /** The rows at the given positions, in the given order. */
  function Select(rows: seq<Row>, positions: seq<nat>): seq<Row>
    requires forall i :: 0 <= i < |positions| ==> positions[i] < |rows|
  {
    seq(|positions|, i requires 0 <= i < |positions| => rows[positions[i]])
  }

  ghost predicate CountsUp(positions: seq<nat>) { forall i :: 0 <= i < |positions| ==> positions[i] == i }

  /** Whatever rows of an intact trail are deleted, reordered or repeated, the result verifies exactly
      when it is the trail cut off at the end. */
  lemma {:induction false} TamperingDetectedUnlessCutAtTheEnd(sha: Digest, iso: Iso, rows: seq<Row>,
      positions: seq<nat>)
    requires HexDigests(sha) && ProperRows(rows) && Intact(sha, iso, rows) && !CollisionAmong(sha, iso, rows, rows)
    requires forall i :: 0 <= i < |positions| ==> positions[i] < |rows|
    ensures Intact(sha, iso, Select(rows, positions)) <==> CountsUp(positions)
  {
    var kept := Select(rows, positions);
    if CountsUp(positions) {
      NoMoreThan(positions, |rows|);
      assert kept == rows[..|positions|];
      IntactPrefix(sha, iso, rows, |positions|);
    } else if Intact(sha, iso, kept) {
      EachInPlace(sha, iso, rows, positions, |positions|);
      assert false;
    }
  }

  lemma {:induction false} NoMoreThan(positions: seq<nat>, n: nat)
    requires CountsUp(positions) && forall i :: 0 <= i < |positions| ==> positions[i] < n
    ensures |positions| <= n
  {
    if positions != [] {
      assert positions[|positions| - 1] < n;
    }
  }

  lemma {:induction false} EachInPlace(sha: Digest, iso: Iso, rows: seq<Row>, positions: seq<nat>, n: nat)
    requires HexDigests(sha) && ProperRows(rows) && Intact(sha, iso, rows) && !CollisionAmong(sha, iso, rows, rows)
    requires forall i :: 0 <= i < |positions| ==> positions[i] < |rows|
    requires Intact(sha, iso, Select(rows, positions)) && n <= |positions|
    ensures CountsUp(positions[..n])
  {
    if n > 0 {
      var m := n - 1;
      var kept, at := Select(rows, positions), positions[n - 1];
      EachInPlace(sha, iso, rows, positions, m);
      assert forall i :: 0 <= i < m ==> positions[..m][i] == positions[i];
      assert m > 0 ==> positions[m - 1] == m - 1;
      assert HeadBefore(kept, m) == HeadBefore(rows, m);
      assert Linked(sha, iso, kept[m], HeadBefore(kept, m)) && Linked(sha, iso, rows[at], HeadBefore(rows, at));
      SameHeadSamePlace(sha, iso, rows, m, at);
    }
  }

  lemma {:induction false} SameHeadSamePlace(sha: Digest, iso: Iso, rows: seq<Row>, m: nat, n: nat)
    requires HexDigests(sha) && ProperRows(rows) && Intact(sha, iso, rows) && !CollisionAmong(sha, iso, rows, rows)
    requires m <= |rows| && n <= |rows| && HeadBefore(rows, m) == HeadBefore(rows, n)
    ensures m == n
  {
    IntactPrefix(sha, iso, rows, m);
    IntactPrefix(sha, iso, rows, n);
    HeadBindsTrail(sha, iso, rows[..m], rows[..n]);
    if CollisionAmong(sha, iso, rows[..m], rows[..n]) {
      CollisionInPrefix(sha, iso, rows, rows, m, n);
    }
  }

  // ---------------------------------------------------------------------------------------------
  // Recording, by one caller.
  // ---------------------------------------------------------------------------------------------

  /** What a caller passes to record_audit. */
  datatype Draft = Draft(
    userId: Option<string>, action: string, resourceType: string, resourceId: string, success: bool, detail: Fields)

  /** The row built for a draft at an instant on top of a given head, as stored. */
  function Entry(sha: Digest, iso: Iso, d: Draft, instant: int, prev: string): Row {
    var user := if d.userId.Some? then d.userId.value else "";
    var now := UtcNow(instant);
    var content := Content(user, d.action, d.resourceType, d.resourceId, d.success, d.detail, Ts(now, iso));
    Row(user, d.action, d.resourceType, d.resourceId, d.success, d.detail, Stored(now), prev,
      EntryHash(sha, prev, content))
  }

  /** Appending the entry built on the current head keeps the chain intact: the hash taken from the
      aware timestamp is the one recomputed from the stored naive one. */
  lemma {:induction false} AppendKeepsIntact(sha: Digest, iso: Iso, rows: seq<Row>, d: Draft, instant: int)
    requires Intact(sha, iso, rows)
    ensures Intact(sha, iso, rows + [Entry(sha, iso, d, instant, Head(rows))])
  {
    var more := rows + [Entry(sha, iso, d, instant, Head(rows))];
    forall i | 0 <= i < |more|
      ensures Linked(sha, iso, more[i], HeadBefore(more, i))
    {
      assert i < |rows| ==> Linked(sha, iso, rows[i], HeadBefore(rows, i));
    }
  }

  class AuditLog {
    var rows: seq<Row>

    constructor ()
      ensures rows == []
    {
      rows := [];
    }

    method LatestHash() returns (hash: string)
      ensures hash == Head(rows)
    {
      hash := if rows == [] then "" else rows[|rows| - 1].entryHash;
    }

    method RecordAudit(sha: Digest, iso: Iso, d: Draft, instant: int) returns (entry: Row)
      modifies this
      ensures rows == old(rows) + [entry] && entry == Entry(sha, iso, d, instant, Head(old(rows)))
      ensures old(Intact(sha, iso, rows)) ==> Intact(sha, iso, rows)
    {
      var prev := LatestHash();
      entry := Entry(sha, iso, d, instant, prev);
      ghost var before := rows;
      rows := rows + [entry];
      if Intact(sha, iso, before) {
        AppendKeepsIntact(sha, iso, before, d, instant);
      }
    }
  }

  // ---------------------------------------------------------------------------------------------
  // Recording, by any number of threads under the lock.
  // ---------------------------------------------------------------------------------------------

  /** A thread in record_audit: waiting for the lock with its timestamp already taken, holding it,
      having read the head, or having committed. */
  datatype Thread =
    | Outside
    | Waiting(draft: Draft, instant: int)
    | Holding(draft: Draft, instant: int)
    | HeadRead(draft: Draft, instant: int, prev: string)
    | Committed

  datatype State = State(rows: seq<Row>, lock: Option<nat>, threads: map<nat, Thread>)

  datatype Step =
    | Begin(t: nat, draft: Draft, instant: int)
    | Acquire(t: nat)
    | ReadHead(t: nat)
    | Commit(t: nat)
    | Fail(t: nat) // an exception in the critical section: the lock is released, nothing is added
    | Release(t: nat)

  function ThreadOf(s: State, t: nat): Thread { if t in s.threads then s.threads[t] else Outside }

  /** One step; a step that is not enabled changes nothing. */
  function Apply(sha: Digest, iso: Iso, s: State, step: Step): State {
    var t := step.t;
    var thread := ThreadOf(s, t);
    match step
    case Begin(_, draft, instant) =>
      if thread.Outside? then s.(threads := s.threads[t := Waiting(draft, instant)]) else s
    case Acquire(_) =>
      if thread.Waiting? && s.lock.None? then
        s.(lock := Some(t), threads := s.threads[t := Holding(thread.draft, thread.instant)])
      else s
    case ReadHead(_) =>
      if thread.Holding? then s.(threads := s.threads[t := HeadRead(thread.draft, thread.instant, Head(s.rows))]) else s
    case Commit(_) =>
      if thread.HeadRead? then
        s.(rows := s.rows + [Entry(sha, iso, thread.draft, thread.instant, thread.prev)],
           threads := s.threads[t := Committed])
      else s
    case Fail(_) =>
      if thread.Holding? || thread.HeadRead? || thread.Committed? then
        s.(lock := None, threads := s.threads[t := Outside])
      else s
    case Release(_) =>
      if thread.Committed? then s.(lock := None, threads := s.threads[t := Outside]) else s
  }

  function Run(sha: Digest, iso: Iso, steps: seq<Step>): State {
    if steps == [] then State([], None, map[])
    else Apply(sha, iso, Run(sha, iso, steps[..|steps| - 1]), steps[|steps| - 1])
  }

  /** Only the lock holder is past the lock, and the head it has read is still the head. */
  ghost predicate Inv(sha: Digest, iso: Iso, s: State) {
    && Intact(sha, iso, s.rows)
    && forall t :: t in s.threads ==>
         match s.threads[t]
         case Outside => true
         case Waiting(_, _) => true
         case Holding(_, _) => s.lock == Some(t)
         case HeadRead(_, _, prev) => s.lock == Some(t) && prev == Head(s.rows)
         case Committed => s.lock == Some(t)
  }

  lemma {:induction false} RunKeepsInv(sha: Digest, iso: Iso, steps: seq<Step>)
    ensures Inv(sha, iso, Run(sha, iso, steps))
  {
    if steps != [] {
      var step := steps[|steps| - 1];
      RunKeepsInv(sha, iso, steps[..|steps| - 1]);
      var s := Run(sha, iso, steps[..|steps| - 1]);
      var thread := ThreadOf(s, step.t);
      if step.Commit? && thread.HeadRead? {
        AppendKeepsIntact(sha, iso, s.rows, thread.draft, thread.instant);
      }
    }
  }

  /** Main result: whatever the threads, the interleaving and the failures, the committed rows form
      one intact chain; and later steps only ever extend it. */
  lemma {:induction false} ChainNeverForks(sha: Digest, iso: Iso, steps: seq<Step>, more: seq<Step>)
    ensures Intact(sha, iso, Run(sha, iso, steps).rows)
    ensures Run(sha, iso, steps).rows <= Run(sha, iso, steps + more).rows
    decreases |more|
  {
    RunKeepsInv(sha, iso, steps);
    if more == [] {
      assert steps + more == steps;
    } else {
      var all := steps + more;
      var init := all[..|all| - 1];
      assert init == steps + more[..|more| - 1];
      ChainNeverForks(sha, iso, steps, more[..|more| - 1]);
      StepOnlyAppends(sha, iso, Run(sha, iso, init), all[|all| - 1]);
      PrefixTransitive(Run(sha, iso, steps).rows, Run(sha, iso, init).rows, Run(sha, iso, all).rows);
    }
  }

  lemma StepOnlyAppends(sha: Digest, iso: Iso, s: State, step: Step)
    ensures s.rows <= Apply(sha, iso, s, step).rows
  {
  }

  lemma PrefixTransitive(a: seq<Row>, b: seq<Row>, c: seq<Row>)
    requires a <= b <= c
    ensures a <= c
  {
  }

  /** A commit by any thread adds one row on the current head, holding the caller's own fields, with
      a missing user as the empty string, and hashing the caller's own timestamp. */
  lemma {:induction false} CommitAppendsTheDraft(sha: Digest, iso: Iso, steps: seq<Step>, t: nat)
    ensures var s := Run(sha, iso, steps);
      var thread := ThreadOf(s, t);
      thread.HeadRead? ==>
        var d, rows := thread.draft, Apply(sha, iso, s, Commit(t)).rows;
        && |rows| == |s.rows| + 1 && s.rows <= rows
        && var row := rows[|s.rows|];
           && row.prevHash == Head(s.rows)
           && row.userId == (if d.userId.Some? then d.userId.value else "") && row.action == d.action
           && row.resourceType == d.resourceType && row.resourceId == d.resourceId
           && row.success == d.success && row.detail == d.detail
           && ContentOf(row, iso) == Content(if d.userId.Some? then d.userId.value else "", d.action,
                d.resourceType, d.resourceId, d.success, d.detail, Ts(UtcNow(thread.instant), iso))
  {
    RunKeepsInv(sha, iso, steps);
  }

  /** The lock never wedges: whenever it is free, an idle thread left alone records its entry on the
      current head and leaves the lock free and itself idle again. */
  lemma {:induction false} RecordingCompletes(sha: Digest, iso: Iso, s: State, t: nat, d: Draft, instant: int)
    requires s.lock.None? && ThreadOf(s, t).Outside?
    ensures var begun := Apply(sha, iso, s, Begin(t, d, instant));
      var holding := Apply(sha, iso, begun, Acquire(t));
      var read := Apply(sha, iso, holding, ReadHead(t));
      var committed := Apply(sha, iso, read, Commit(t));
      var done := Apply(sha, iso, committed, Release(t));
      && holding.lock == Some(t) && done.lock.None? && ThreadOf(done, t).Outside?
      && done.rows == s.rows + [Entry(sha, iso, d, instant, Head(s.rows))]
  {
  }

  /** Nor by a failure: it frees the lock and adds nothing. And while one thread holds the lock no other
      gets it. */
  lemma {:induction false} FailureFreesTheLock(sha: Digest, iso: Iso, steps: seq<Step>, t: nat, u: nat)
    ensures var s := Run(sha, iso, steps);
      s.lock == Some(t) ==>
        && Apply(sha, iso, s, Fail(t)).lock.None? && Apply(sha, iso, s, Fail(t)).rows == s.rows
        && Apply(sha, iso, s, Acquire(u)) == s
  {
    LockHolderIsInside(sha, iso, steps);
  }

  /** Whoever holds the lock is in the critical section. */
  lemma {:induction false} LockHolderIsInside(sha: Digest, iso: Iso, steps: seq<Step>)
    ensures var s := Run(sha, iso, steps);
      s.lock.Some? ==>
        var thread := ThreadOf(s, s.lock.value); thread.Holding? || thread.HeadRead? || thread.Committed?
  {
    if steps != [] {
      LockHolderIsInside(sha, iso, steps[..|steps| - 1]);
      RunKeepsInv(sha, iso, steps[..|steps| - 1]);
    }
  }
}

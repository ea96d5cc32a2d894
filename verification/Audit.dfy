/**
 The hash-chained audit log. The hash and the payload encoder are parameters: a hash that
 always yields 32 bytes, and an encoder that may refuse a payload. Freedom from collisions is
 a hypothesis about the inputs that occur in the two logs compared, never about all inputs.
 */
module Audit {
  import opened Base

  type Bytes = seq<int>
  type Hash = Bytes -> Bytes
  type Encoder = Payload -> Option<Bytes>

  const HASH_SIZE := 32

  /** The hashed fields; an absent optional field is the empty string. */
  datatype Payload = Payload(
    id: string, occurredAt: string, actor: string, session: string, source: string, action: string, targetType: string,
    target: string, account: string, request: string, operation: string, result: string, details: string)

  /** A stored row; optional fields are nullable columns. */
  datatype Row = Row(
    id: string, occurredAt: string, actor: Option<string>, session: Option<string>, source: Option<string>,
    action: string, targetType: string, target: Option<string>, account: Option<string>,
    request: Option<string>, operation: Option<string>, result: string, details: string,
    previous: Bytes, hash: Bytes)

  type Log = seq<Row>

  function Zeros(): Bytes {
    seq(HASH_SIZE, _ => 0)
  }

  ghost predicate FixedLength(h: Hash) {
    forall b :: |h(b)| == HASH_SIZE
  }

  // ----- Rows and payloads ------------------------------------------------

  function Nullable(s: string): Option<string> {
    if s == "" then None else Some(s)
  }

  function OrEmpty(o: Option<string>): string {
    if o.Some? then o.value else ""
  }

  function ToRow(p: Payload, previous: Bytes, hash: Bytes): Row {
    Row(p.id, p.occurredAt, Nullable(p.actor), Nullable(p.session), Nullable(p.source), p.action, p.targetType,
        Nullable(p.target), Nullable(p.account), Nullable(p.request), Nullable(p.operation), p.result,
        p.details, previous, hash)
  }

  function FromRow(r: Row): Payload {
    Payload(r.id, r.occurredAt, OrEmpty(r.actor), OrEmpty(r.session), OrEmpty(r.source), r.action, r.targetType,
            OrEmpty(r.target), OrEmpty(r.account), OrEmpty(r.request), OrEmpty(r.operation), r.result, r.details)
  }

  /** No nullable column stores an empty text. */
  predicate NoEmptyText(r: Row) {
    Some("") !in {r.actor, r.session, r.source, r.target, r.account, r.request, r.operation}
  }

  /** What is hashed when an event is read back is what was hashed when it was written. */
  lemma RowRoundTrip(p: Payload, previous: Bytes, hash: Bytes)
    ensures FromRow(ToRow(p, previous, hash)) == p && NoEmptyText(ToRow(p, previous, hash))
  {
  }

  /** A row is determined by its payload and hashes, up to empty texts in nullable columns. */
  lemma PayloadDeterminesRow(r: Row)
    ensures ToRow(FromRow(r), r.previous, r.hash) == r <==> NoEmptyText(r)
  {
  }

  // ----- Appending --------------------------------------------------------

  function Head(log: Log): Bytes {
    if log == [] then Zeros() else log[|log| - 1].hash
  }

  function Append(h: Hash, encode: Encoder, log: Log, p: Payload): Option<Log> {
    match encode(p)
    case None => None
    case Some(b) => Some(log + [ToRow(p, Head(log), h(Head(log) + b))])
  }

  /** Appends in order; a payload that cannot be encoded leaves no trace. */
  function Build(h: Hash, encode: Encoder, payloads: seq<Payload>): Log {
    if payloads == [] then []
    else
      var log := Build(h, encode, payloads[..|payloads| - 1]);
      match Append(h, encode, log, payloads[|payloads| - 1])
      case None => log
      case Some(more) => more
  }

  /** `more` is `log` and one row behind it, which reads back as `p` and is linked to the head of `log`. */
  predicate Extends(h: Hash, encode: Encoder, log: Log, more: Log, p: Payload) {
    && |more| == |log| + 1 && more[..|log|] == log
    && FromRow(more[|log|]) == p && NoEmptyText(more[|log|])
    && more[|log|].previous == Head(log)
    && encode(p).Some? && more[|log|].hash == h(Head(log) + encode(p).value)
  }

  /** An append succeeds for every payload that can be encoded, keeps all rows and adds the event. */
  lemma AppendExtends(h: Hash, encode: Encoder, log: Log, p: Payload)
    ensures Append(h, encode, log, p).Some? <==> encode(p).Some?
    ensures encode(p).Some? ==> Extends(h, encode, log, Append(h, encode, log, p).value, p)
  {
    if encode(p).Some? {
      RowRoundTrip(p, Head(log), h(Head(log) + encode(p).value));
    }
  }

  function Encodable(encode: Encoder, payloads: seq<Payload>): seq<Payload> {
    if payloads == [] then []
    else
      var n := |payloads| - 1;
      Encodable(encode, payloads[..n]) + if encode(payloads[n]).Some? then [payloads[n]] else []
  }

  function ReadBack(log: Log): seq<Payload> {
    seq(|log|, i requires 0 <= i < |log| => FromRow(log[i]))
  }

  /** Nothing is lost, added or reordered: a log reads back as the encodable events that were appended. */
  lemma {:induction false} LogsReadBack(h: Hash, encode: Encoder, payloads: seq<Payload>)
    ensures ReadBack(Build(h, encode, payloads)) == Encodable(encode, payloads)
  {
    if payloads != [] {
      var n := |payloads| - 1;
      var log := Build(h, encode, payloads[..n]);
      LogsReadBack(h, encode, payloads[..n]);
      AppendExtends(h, encode, log, payloads[n]);
      if encode(payloads[n]).Some? {
        var more := Build(h, encode, payloads);
        assert ReadBack(more) == ReadBack(more[..|log|]) + [FromRow(more[|log|])];
      }
      hide Append, ToRow, FromRow;
    }
  }

  // ----- Verification -----------------------------------------------------

  /** Row `i` continues the chain before it. */
  predicate RowOk(h: Hash, encode: Encoder, log: Log, i: nat)
    requires i < |log|
  {
    && log[i].previous == Head(log[..i]) && |log[i].previous| == HASH_SIZE
    && encode(FromRow(log[i])).Some?
    && log[i].hash == h(log[i].previous + encode(FromRow(log[i])).value) && |log[i].hash| == HASH_SIZE
  }

  ghost predicate ChainValid(h: Hash, encode: Encoder, log: Log) {
    forall i {:trigger RowOk(h, encode, log, i)} :: 0 <= i < |log| ==> RowOk(h, encode, log, i)
  }

  /** Walks the log with the expected predecessor in hand; answers the first row that does not fit. */
  method VerifyAuditChain(h: Hash, encode: Encoder, log: Log) returns (mismatch: Option<nat>)
    ensures mismatch.None? <==> ChainValid(h, encode, log)
    ensures mismatch.Some? ==>
      mismatch.value < |log| && !RowOk(h, encode, log, mismatch.value) && forall i :: 0 <= i < mismatch.value ==>
        RowOk(h, encode, log, i)
  {
    var expected := Zeros();
    for n := 0 to |log|
      invariant expected == Head(log[..n])
      invariant forall i :: 0 <= i < n ==> RowOk(h, encode, log, i)
    {
      var row := log[n];
      assert RowOk(h, encode, log, n) <==>
        && row.previous == expected && |row.previous| == HASH_SIZE && encode(FromRow(row)).Some?
        && row.hash == h(row.previous + encode(FromRow(row)).value) && |row.hash| == HASH_SIZE;
      if |row.previous| != HASH_SIZE || row.previous != expected {
        return Some(n);
      }
      var encoded := encode(FromRow(row));
      if encoded.None? {
        return Some(n);
      }
      if |row.hash| != HASH_SIZE || row.hash != h(row.previous + encoded.value) {
        return Some(n);
      }
      expected := row.hash;
    }
    mismatch := None;
  }

  lemma PrefixRowOk(h: Hash, encode: Encoder, log: Log, n: nat, i: nat)
    requires i < n <= |log|
    ensures RowOk(h, encode, log[..n], i) <==> RowOk(h, encode, log, i)
  {
    assert log[..n][..i] == log[..i];
  }

  /** Every prefix of a valid log is valid: a removed tail needs a checkpoint to be noticed. */
  lemma PrefixValid(h: Hash, encode: Encoder, log: Log, n: nat)
    requires ChainValid(h, encode, log) && n <= |log|
    ensures ChainValid(h, encode, log[..n])
  {
    forall i | 0 <= i < n ensures RowOk(h, encode, log[..n], i) {
      PrefixRowOk(h, encode, log, n, i);
    }
  }

  lemma AppendKeepsValid(h: Hash, encode: Encoder, log: Log, p: Payload)
    requires FixedLength(h) && ChainValid(h, encode, log) && encode(p).Some? && |Head(log)| == HASH_SIZE
    ensures ChainValid(h, encode, Append(h, encode, log, p).value)
    ensures |Head(Append(h, encode, log, p).value)| == HASH_SIZE
  {
    var more := Append(h, encode, log, p).value;
    assert more[..|log|] == log;
    forall i | 0 <= i < |more| ensures RowOk(h, encode, more, i) {
      if i < |log| {
        PrefixRowOk(h, encode, more, |log|, i);
        assert RowOk(h, encode, log, i);
      } else {
        RowRoundTrip(p, Head(log), more[i].hash);
      }
    }
  }

  /** Whatever is appended, in whatever order, verifies. */
  lemma {:induction false} BuiltLogsVerify(h: Hash, encode: Encoder, payloads: seq<Payload>)
    requires FixedLength(h)
    ensures ChainValid(h, encode, Build(h, encode, payloads)) && |Head(Build(h, encode, payloads))| == HASH_SIZE
  {
    if payloads != [] {
      var front := payloads[..|payloads| - 1];
      BuiltLogsVerify(h, encode, front);
      if encode(payloads[|payloads| - 1]).Some? {
        AppendKeepsValid(h, encode, Build(h, encode, front), payloads[|payloads| - 1]);
      }
    }
  }

  // ----- What a checkpoint pins down --------------------------------------

  /** What row `i` feeds to the hash. */
  function Input(encode: Encoder, log: Log, i: nat): Bytes
    requires i < |log| && encode(FromRow(log[i])).Some?
  {
    log[i].previous + encode(FromRow(log[i])).value
  }

  /** Among the inputs of the two logs no two different ones share a hash. */
  ghost predicate NoCollision(h: Hash, encode: Encoder, a: Log, b: Log) {
    forall i, j | 0 <= i < |a| && 0 <= j < |b| && encode(FromRow(a[i])).Some? && encode(FromRow(b[j])).Some? ::
      h(Input(encode, a, i)) == h(Input(encode, b, j)) ==> Input(encode, a, i) == Input(encode, b, j)
  }

  /** No input of the log hashes to the all-zero start value. */
  ghost predicate NeverZero(h: Hash, encode: Encoder, log: Log) {
    forall i | 0 <= i < |log| && encode(FromRow(log[i])).Some? :: h(Input(encode, log, i)) != Zeros()
  }

  /** Row by row, the logs have the same links and the same encodings. */
  ghost predicate SameEncodings(encode: Encoder, a: Log, b: Log) {
    && |a| == |b|
    && forall i :: 0 <= i < |a| ==>
         && a[i].previous == b[i].previous && a[i].hash == b[i].hash
         && encode(FromRow(a[i])) == encode(FromRow(b[i]))
  }

  /** Equal hashes of two rows carry over to their encodings and predecessors. */
  lemma EqualHashStep(h: Hash, encode: Encoder, a: Log, b: Log, i: nat, j: nat)
    requires i < |a| && j < |b| && RowOk(h, encode, a, i) && RowOk(h, encode, b, j) && NoCollision(h, encode, a, b)
    requires a[i].hash == b[j].hash
    ensures encode(FromRow(a[i])) == encode(FromRow(b[j])) && a[i].previous == b[j].previous
  {
    assert Input(encode, a, i) == Input(encode, b, j);
    SplitFixed(a[i].previous, encode(FromRow(a[i])).value, b[j].previous, encode(FromRow(b[j])).value);
  }

  lemma HeadOfPrefix(log: Log, n: nat)
    requires 0 < n <= |log|
    ensures Head(log[..n]) == log[n - 1].hash
  {
  }

  /** Two prefixes with equal heads end in rows that encode alike, and what is before them has equal heads too. */
  lemma EqualHeadsStep(h: Hash, encode: Encoder, a: Log, b: Log, m: nat, n: nat)
    requires ChainValid(h, encode, a) && ChainValid(h, encode, b) && NoCollision(h, encode, a, b)
    requires 0 < m <= |a| && 0 < n <= |b| && Head(a[..m]) == Head(b[..n])
    ensures a[m - 1].hash == b[n - 1].hash && a[m - 1].previous == b[n - 1].previous
    ensures encode(FromRow(a[m - 1])) == encode(FromRow(b[n - 1])) && Head(a[..m - 1]) == Head(b[..n - 1])
  {
    HeadOfPrefix(a, m);
    HeadOfPrefix(b, n);
    assert RowOk(h, encode, a, m - 1) && RowOk(h, encode, b, n - 1);
    EqualHashStep(h, encode, a, b, m - 1, n - 1);
  }

  lemma {:induction false} EqualHeadsAgree(h: Hash, encode: Encoder, a: Log, b: Log, n: nat)
    requires ChainValid(h, encode, a) && ChainValid(h, encode, b) && NoCollision(h, encode, a, b)
    requires n <= |a| && n <= |b| && Head(a[..n]) == Head(b[..n])
    ensures forall i :: 0 <= i < n ==>
      && a[i].previous == b[i].previous && a[i].hash == b[i].hash
      && encode(FromRow(a[i])) == encode(FromRow(b[i]))
  {
    hide ChainValid, NoCollision, Head, FromRow;
    if n > 0 {
      EqualHeadsStep(h, encode, a, b, n, n);
      EqualHeadsAgree(h, encode, a, b, n - 1);
    }
  }

  /** With a collision-free hash alone, logs of equal length and head agree on every link and every encoding. */
  lemma HeadDeterminesEncodings(h: Hash, encode: Encoder, a: Log, b: Log)
    requires ChainValid(h, encode, a) && ChainValid(h, encode, b) && NoCollision(h, encode, a, b)
    requires Head(a) == Head(b) && |a| == |b|
    ensures SameEncodings(encode, a, b)
  {
    assert a[..|a|] == a && b[..|b|] == b;
    hide ChainValid, NoCollision, Head, FromRow;
    EqualHeadsAgree(h, encode, a, b, |a|);
  }

  lemma PrefixHeadNotZero(h: Hash, encode: Encoder, log: Log, n: nat)
    requires ChainValid(h, encode, log) && NeverZero(h, encode, log) && 0 < n <= |log|
    ensures Head(log[..n]) != Zeros()
  {
    HeadOfPrefix(log, n);
    assert RowOk(h, encode, log, n - 1);
    assert log[n - 1].hash == h(Input(encode, log, n - 1));
  }

  lemma {:induction false} EqualHeadsEqualLengths(h: Hash, encode: Encoder, a: Log, b: Log, m: nat, n: nat)
    requires ChainValid(h, encode, a) && ChainValid(h, encode, b) && NoCollision(h, encode, a, b)
    requires NeverZero(h, encode, a) && NeverZero(h, encode, b)
    requires m <= |a| && n <= |b| && Head(a[..m]) == Head(b[..n])
    ensures m == n
  {
    hide ChainValid, NoCollision, NeverZero, FromRow;
    if m > 0 && n > 0 {
      EqualHeadsStep(h, encode, a, b, m, n);
      EqualHeadsEqualLengths(h, encode, a, b, m - 1, n - 1);
    } else if m > 0 {
      PrefixHeadNotZero(h, encode, a, m);
    } else if n > 0 {
      PrefixHeadNotZero(h, encode, b, n);
    }
  }

  /**
   A checkpoint of the head hash pins everything that was hashed: if no occurring input hashes to
   the start value, two valid logs with the same head have the same length, links and encodings.
   */
  lemma CheckpointPinsEncodings(h: Hash, encode: Encoder, a: Log, b: Log)
    requires ChainValid(h, encode, a) && ChainValid(h, encode, b) && NoCollision(h, encode, a, b)
    requires NeverZero(h, encode, a) && NeverZero(h, encode, b) && Head(a) == Head(b)
    ensures SameEncodings(encode, a, b)
  {
    assert a[..|a|] == a && b[..|b|] == b;
    hide ChainValid, NoCollision, NeverZero, Head, FromRow, SameEncodings;
    EqualHeadsEqualLengths(h, encode, a, b, |a|, |b|);
    HeadDeterminesEncodings(h, encode, a, b);
  }

  /** At each position the encoder tells the two payloads apart if they differ. */
  ghost predicate EncoderSeparates(encode: Encoder, a: Log, b: Log) {
    forall i | 0 <= i < |a| && i < |b| :: encode(FromRow(a[i])) == encode(FromRow(b[i])) ==>
      FromRow(a[i]) == FromRow(b[i])
  }

  ghost predicate NoEmptyTexts(log: Log) {
    forall i :: 0 <= i < |log| ==> NoEmptyText(log[i])
  }

  /**
   As far as the encoder separates payloads, and no nullable column holds an empty text, it pins the
   rows themselves.
   */
  lemma CheckpointPinsRows(h: Hash, encode: Encoder, a: Log, b: Log)
    requires ChainValid(h, encode, a) && ChainValid(h, encode, b) && NoCollision(h, encode, a, b)
    requires NeverZero(h, encode, a) && NeverZero(h, encode, b) && Head(a) == Head(b)
    requires EncoderSeparates(encode, a, b) && NoEmptyTexts(a) && NoEmptyTexts(b)
    ensures a == b
  {
    CheckpointPinsEncodings(h, encode, a, b);
    hide ChainValid, NoCollision, NeverZero, Head;
    forall i | 0 <= i < |a| ensures a[i] == b[i] {
      PayloadDeterminesRow(a[i]);
      PayloadDeterminesRow(b[i]);
      assert FromRow(a[i]) == FromRow(b[i]);
    }
  }

  // ----- What a checkpoint does not pin down ------------------------------

  /** The hash tells the input of row `i` from that of a rewritten row with the same predecessor. */
  predicate HashSeparates(h: Hash, encode: Encoder, log: Log, i: nat, row: Row)
    requires i < |log|
  {
    encode(FromRow(row)).Some? && encode(FromRow(log[i])).Some? ==>
      var x, y := row.previous + encode(FromRow(row)).value, log[i].previous + encode(FromRow(log[i])).value;
      h(x) == h(y) ==> x == y
  }

  /** Rows of a log in which one row was rewritten without touching its hashes. */
  lemma RewrittenRowOk(h: Hash, encode: Encoder, log: Log, i: nat, row: Row, j: nat)
    requires i < |log| && j < |log| && row.previous == log[i].previous && row.hash == log[i].hash
    ensures Head(log[i := row][..j]) == Head(log[..j])
    ensures j != i ==> (RowOk(h, encode, log[i := row], j) <==> RowOk(h, encode, log, j))
  {
    if j > 0 {
      HeadOfPrefix(log, j);
      HeadOfPrefix(log[i := row], j);
    }
  }

  /**
   A row rewritten with its hashes left as they are is detected exactly when its encoding differs;
   the head never changes, so no checkpoint helps.
   */
  lemma RewriteDetectedIffEncodingDiffers(h: Hash, encode: Encoder, log: Log, i: nat, row: Row)
    requires ChainValid(h, encode, log) && i < |log| && row.previous == log[i].previous && row.hash == log[i].hash
    requires HashSeparates(h, encode, log, i, row)
    ensures ChainValid(h, encode, log[i := row]) <==> encode(FromRow(row)) == encode(FromRow(log[i]))
    ensures Head(log[i := row]) == Head(log)
  {
    var log' := log[i := row];
    assert RowOk(h, encode, log, i);
    RewrittenRowOk(h, encode, log, i, row, i);
    if encode(FromRow(row)) == encode(FromRow(log[i])) {
      forall j | 0 <= j < |log'| ensures RowOk(h, encode, log', j) {
        RewrittenRowOk(h, encode, log, i, row, j);
        assert RowOk(h, encode, log, j);
      }
    } else if encode(FromRow(row)).Some? {
      if row.previous + encode(FromRow(row)).value == log[i].previous + encode(FromRow(log[i])).value {
        SplitFixed(row.previous, encode(FromRow(row)).value, log[i].previous, encode(FromRow(log[i])).value);
      }
      assert !RowOk(h, encode, log', i);
    } else {
      assert !RowOk(h, encode, log', i);
    }
  }

  /** Outside any string literal after `s`, starting outside one. */
  function Outside(s: string): bool {
    InString(s) == 0
  }

  /** Where a JSON scanner stands after `s`: 0 outside strings, 1 inside one, 2 right after a backslash in one. */
  function InString(s: string): nat {
    if s == "" then 0
    else
      var c := s[|s| - 1];
      match InString(s[..|s| - 1])
      case 0 => if c == '"' then 1 else 0
      case 1 => if c == '"' then 0 else if c == '\\' then 2 else 1
      case _ => 1
  }

  /** A blank may follow here: `s` ends, outside strings, in an opening bracket, a comma or a colon. */
  predicate AfterPunctuation(s: string) {
    s != "" && s[|s| - 1] in {'{', '[', ',', ':'} && Outside(s)
  }

  /**
   What the JSON encoder does with the raw details it embeds: it compacts them, so a blank after
   punctuation makes no difference.
   */
  ghost predicate CompactsDetails(encode: Encoder) {
    forall p: Payload, x: string, y: string :: p.details == x + y && AfterPunctuation(x) ==>
      encode(p.(details := x + " " + y)) == encode(p)
  }

  function WithDetails(row: Row, details: string): Row {
    row.(details := details)
  }

  /** With such an encoder, a blank slipped into any stored details goes undetected, in every log and at every row. */
  lemma BlankGoesUndetected(h: Hash, encode: Encoder, log: Log, i: nat, x: string, y: string)
    requires ChainValid(h, encode, log) && CompactsDetails(encode)
    requires i < |log| && log[i].details == x + y && AfterPunctuation(x)
    ensures var log' := log[i := WithDetails(log[i], x + " " + y)];
      log' != log && ChainValid(h, encode, log') && Head(log') == Head(log)
  {
    var row := WithDetails(log[i], x + " " + y);
    assert FromRow(row) == FromRow(log[i]).(details := x + " " + y);
    assert encode(FromRow(row)) == encode(FromRow(log[i]));
    RewriteDetectedIffEncodingDiffers(h, encode, log, i, row);
    assert |row.details| == |log[i].details| + 1;
    assert log[i := row][i] != log[i];
  }

  // ----- The table --------------------------------------------------------

  class AuditTable {
    const h: Hash
    const encode: Encoder
    var rows: Log

    /** The table always verifies. */
    ghost predicate Valid()
      reads this
    {
      FixedLength(h) && ChainValid(h, encode, rows) && |Head(rows)| == HASH_SIZE
    }

    constructor (h: Hash, encode: Encoder)
      requires FixedLength(h)
      ensures Valid() && rows == [] && this.h == h && this.encode == encode
    {
      this.h, this.encode := h, encode;
      rows := [];
    }

    /** Links a new row to the newest one. */
    method AppendEvent(p: Payload) returns (ok: bool)
      requires Valid()
      modifies this
      ensures Valid() && ok == encode(p).Some?
      ensures if ok then Append(h, encode, old(rows), p) == Some(rows) && Extends(h, encode, old(rows), rows, p)
              else rows == old(rows)
    {
      var previous := Zeros();
      if rows != [] {
        previous := rows[|rows| - 1].hash;
      }
      var encoded := encode(p);
      if encoded.None? {
        return false;
      }
      AppendKeepsValid(h, encode, rows, p);
      AppendExtends(h, encode, rows, p);
      rows := rows + [ToRow(p, previous, h(previous + encoded.value))];
      ok := true;
    }
  }
}

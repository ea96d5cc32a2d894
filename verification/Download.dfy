/**
 Ranged file downloads from the agent to the client: range validation and resolution, the
 agent's own check, the response headers, and the client's strict decoding of them.
 Arithmetic is on unsigned 64-bit integers and wraps.
 */
module Download {
  import opened Base
  import opened Decimal

  const MAXIMUM_BYTES: nat := 0x1_0000_0000
  const MAX_INT64: nat := 0x7FFF_FFFF_FFFF_FFFF
  const MODULUS: nat := MAX_UINT64 + 1

  type Uint64 = n: nat | n <= MAX_UINT64

  function Add(a: Uint64, b: Uint64): Uint64 {
    (a + b) % MODULUS
  }

  function Sub(a: Uint64, b: Uint64): Uint64 {
    (a + MODULUS - b) % MODULUS
  }

  function Min(a: Uint64, b: Uint64): Uint64 {
    if a < b then a else b
  }

  lemma SubExact(a: Uint64, b: Uint64)
    requires b <= a
    ensures Sub(a, b) == a - b
  {
  }

  lemma AddExact(a: Uint64, b: Uint64)
    requires a + b <= MAX_UINT64
    ensures Add(a, b) == a + b
  {
  }

  // ----- Ranges -----------------------------------------------------------

  datatype Range = Range(start: Option<Uint64>, end: Option<Uint64>, suffix: Option<Uint64>)

  predicate ValidRange(r: Option<Range>) {
    r.None? ||
    match r.value.suffix
    case Some(n) => r.value.start.None? && r.value.end.None? && n != 0 && n <= MAXIMUM_BYTES
    case None =>
      r.value.start.Some? &&
      (r.value.end.Some? ==>
        !(r.value.end.value < r.value.start.value) && Sub(r.value.end.value, r.value.start.value) < MAXIMUM_BYTES)
  }

  datatype Resolved = Resolved(offset: Uint64, length: Uint64, partial: bool) | TooLarge | Unsatisfiable

  function Resolve(total: Uint64, r: Option<Range>): Resolved {
    if r.None? then (if total > MAXIMUM_BYTES then TooLarge else Resolved(0, total, false))
    else if total == 0 then Unsatisfiable
    else if r.value.suffix.Some? then
      var length := Min(r.value.suffix.value, total);
      Resolved(Sub(total, length), length, true)
    else if r.value.start.None? || r.value.start.value >= total then Unsatisfiable
    else
      var last := Sub(total, 1);
      var end := if r.value.end.Some? then Min(last, r.value.end.value) else last;
      var length := Add(Sub(end, r.value.start.value), 1);
      if length > MAXIMUM_BYTES then TooLarge else Resolved(r.value.start.value, length, true)
  }

  /** The byte positions a request asks for, as section 14.1.2 of RFC 9110 defines byte ranges. */
  predicate Wanted(total: Uint64, r: Option<Range>, p: int) {
    && 0 <= p < total
    && match r
       case None => true
       case Some(x) =>
         match x.suffix
         case Some(n) => p + n >= total
         case None => x.start.Some? && x.start.value <= p && (x.end.Some? ==> p <= x.end.value)
  }

  /** The interval holds exactly the requested positions. */
  ghost predicate Covers(total: Uint64, r: Option<Range>, offset: nat, length: nat) {
    forall p :: Wanted(total, r, p) <==> offset <= p < offset + length
  }

  lemma ResolveSuffix(total: Uint64, r: Option<Range>)
    requires ValidRange(r) && r.Some? && r.value.suffix.Some? && total > 0
    ensures var x := Resolve(total, r);
      x.Resolved? && x.partial && 0 < x.length <= MAXIMUM_BYTES && x.offset + x.length == total &&
        x.length == Min(r.value.suffix.value, total)
  {
    SubExact(total, Min(r.value.suffix.value, total));
  }

  lemma ResolveBounds(total: Uint64, r: Option<Range>)
    requires ValidRange(r) && r.Some? && r.value.suffix.None? && r.value.start.value < total
    ensures var x := Resolve(total, r);
      var end := if r.value.end.Some? then Min(total - 1, r.value.end.value) else total - 1;
      && r.value.start.value <= end < total
      && (x == if end - r.value.start.value + 1 > MAXIMUM_BYTES then TooLarge
               else Resolved(r.value.start.value, end - r.value.start.value + 1, true))
  {
    SubExact(total, 1);
    var start := r.value.start.value;
    var end := if r.value.end.Some? then Min(total - 1, r.value.end.value) else total - 1;
    SubExact(end, start);
    AddExact(end - start, 1);
  }

  /** A resolved range is exactly the requested positions, and no 64-bit operation wrapped. */
  lemma ResolvedIsWanted(total: Uint64, r: Option<Range>, offset: Uint64, length: Uint64, partial: bool)
    requires ValidRange(r) && Resolve(total, r) == Resolved(offset, length, partial)
    ensures Covers(total, r, offset, length) && offset + length <= total && length <= 4_294_967_296
    ensures partial == r.Some? && (partial ==> length > 0)
  {
    if r.Some? {
      if r.value.suffix.Some? {
        ResolveSuffix(total, r);
      } else {
        ResolveBounds(total, r);
      }
      hide Resolve;
    }
  }

  /** A request fails exactly when it asks for nothing in the file, or for more than the limit. */
  lemma RefusedIff(total: Uint64, r: Option<Range>)
    requires ValidRange(r)
    ensures Resolve(total, r).Unsatisfiable? <==> r.Some? && forall p :: !Wanted(total, r, p)
    ensures Resolve(total, r).TooLarge? <==>
      exists p, q :: Wanted(total, r, p) && Wanted(total, r, q) && q - p >= MAXIMUM_BYTES
  {
    var x := Resolve(total, r);
    if x.Resolved? {
      ResolvedIsWanted(total, r, x.offset, x.length, x.partial);
      assert x.partial ==> Wanted(total, r, x.offset);
    } else if r.None? {
      assert Wanted(total, r, 0) && Wanted(total, r, MAXIMUM_BYTES);
    } else if total > 0 && r.value.suffix.None? && r.value.start.value < total {
      ResolveBounds(total, r);
      var start := r.value.start.value;
      assert Wanted(total, r, start) && Wanted(total, r, start + MAXIMUM_BYTES);
    } else if total > 0 && r.value.suffix.Some? {
      ResolveSuffix(total, r);
    }
  }

  // ----- Headers ----------------------------------------------------------

  datatype Part = Part(total: Uint64, offset: Uint64, length: Uint64, partial: bool)

  /** The agent's check before it answers. */
  predicate AgentAccepts(x: Part) {
    && !(x.length > MAXIMUM_BYTES || x.length > MAX_INT64) && !(x.offset > x.total) &&
      !(x.length > Sub(x.total, x.offset))
    && !(x.partial && x.length == 0) && !(!x.partial && (x.offset != 0 || x.length != x.total))
  }

  datatype Headers = Headers(status: int, contentLength: string, fileSize: string, fileOffset: string,
    contentRange: string)

  function RangeText(x: Part): string {
    "bytes " + FormatUint(x.offset) + "-" + FormatUint(Sub(Add(x.offset, x.length), 1)) + "/" + FormatUint(x.total)
  }

  function Emit(x: Part): Headers {
    Headers(if x.partial then 206 else 200, FormatUint(x.length), FormatUint(x.total), FormatUint(x.offset),
            if x.partial then RangeText(x) else "")
  }

  /** The client's checks, in its order. */
  function Decode(h: Headers): Option<Part> {
    if h.status != 200 && h.status != 206 then None
    else
      var length, total, offset :=
        ParseCanonicalUint(h.contentLength), ParseCanonicalUint(h.fileSize), ParseCanonicalUint(h.fileOffset);
      if length.None? || length.value > MAXIMUM_BYTES || total.None? || offset.None? then None
      else if offset.value > total.value || length.value > Sub(total.value, offset.value) then None
      else
        var x := Part(total.value, offset.value, length.value, h.status == 206);
        if (x.partial && x.length == 0) || (!x.partial && (x.offset != 0 || x.length != x.total)) ||
          (x.partial && h.contentRange != RangeText(x))
        then None else Some(x)
  }

  /** The two header sets say the same; on a complete response the client ignores Content-Range. */
  predicate SameHeaders(h: Headers, h': Headers) {
    h.(contentRange := "") == h'.(contentRange := "") && (h.status == 206 ==> h.contentRange == h'.contentRange)
  }

  /** The client decodes a tuple if and only if it is one the agent may send and these are its headers. */
  lemma DecodeIffEmitted(h: Headers, x: Part)
    ensures Decode(h) == Some(x) <==> AgentAccepts(x) && SameHeaders(h, Emit(x))
  {
    ParseCanonicalExact(h.contentLength, x.length);
    ParseCanonicalExact(h.fileSize, x.total);
    ParseCanonicalExact(h.fileOffset, x.offset);
    hide ParseCanonicalUint, FormatUint, RangeText, Sub;
  }

  /** Whatever range is resolved against whatever file size, the client learns exactly the bytes asked for. */
  lemma EndToEnd(total: Uint64, r: Option<Range>, offset: Uint64, length: Uint64, partial: bool)
    requires ValidRange(r) && Resolve(total, r) == Resolved(offset, length, partial)
    ensures var x := Part(total, offset, length, partial);
      AgentAccepts(x) && Decode(Emit(x)) == Some(x) && Covers(total, r, offset, length)
  {
    var x := Part(total, offset, length, partial);
    ResolvedIsWanted(total, r, offset, length, partial);
    SubExact(total, offset);
    assert length == total || r.Some? by { if r.None? { assert Resolve(total, r) == Resolved(0, total, false); } }
    hide Resolve, ValidRange, Covers;
    DecodeIffEmitted(Emit(x), x);
    hide Emit, Decode;
  }

  /** A range header split at its separators (section 14.4 of RFC 9110). */
  predicate Splits(text: string, first: string, last: string, size: string) {
    && text == "bytes " + first + "-" + last + "/" + size
    && '-' !in first && '/' !in last
  }

  lemma DigitsOnly(s: string, c: char)
    requires AllDigits(s) && !IsDigit(c)
    ensures c !in s
  {
  }

  lemma SplitsOnce(a: string, b: string, c: string, first: string, last: string, size: string)
    requires '-' !in a && '/' !in b
    ensures Splits("bytes " + a + "-" + b + "/" + c, first, last, size) <==> first == a && last == b && size == c
  {
    var text := "bytes " + a + "-" + b + "/" + c;
    if Splits(text, first, last, size) {
      var rest, rest' := a + ['-'] + (b + ['/'] + c), first + ['-'] + (last + ['/'] + size);
      assert text == "bytes " + rest && text == "bytes " + rest';
      assert text[6..] == rest == rest';
      SplitAtSeparator(a, b + ['/'] + c, first, last + ['/'] + size, '-');
      SplitAtSeparator(b, c, last, size, '/');
    }
  }

  /** The range header of an accepted part splits in one way, into its first and last position and the size. */
  lemma RangeTextReadsBack(x: Part, first: string, last: string, size: string)
    requires AgentAccepts(x) && x.partial
    ensures Splits(RangeText(x), first, last, size) <==>
      && ParseCanonicalUint(first) == Some(x.offset) && ParseCanonicalUint(last) == Some(x.offset + x.length - 1)
      && ParseCanonicalUint(size) == Some(x.total)
  {
    SubExact(x.total, x.offset);
    AddExact(x.offset, x.length);
    SubExact(x.offset + x.length, 1);
    DigitsOnly(FormatUint(x.offset), '-');
    DigitsOnly(FormatUint(x.offset + x.length - 1), '/');
    ParseCanonicalExact(first, x.offset);
    ParseCanonicalExact(last, x.offset + x.length - 1);
    ParseCanonicalExact(size, x.total);
    hide ParseCanonicalUint, FormatUint, AgentAccepts, Sub, Add, Splits;
    SplitsOnce(FormatUint(x.offset), FormatUint(x.offset + x.length - 1), FormatUint(x.total), first, last, size);
  }

  /** So the header names exactly the positions that were asked for. */
  lemma RangeTextIsWanted(total: Uint64, r: Option<Range>, offset: Uint64, length: Uint64, p: nat,
                          first: string, last: string, size: string)
    requires ValidRange(r) && Resolve(total, r) == Resolved(offset, length, true)
    requires Splits(RangeText(Part(total, offset, length, true)), first, last, size)
    ensures var from, to := ParseCanonicalUint(first), ParseCanonicalUint(last);
      && from.Some? && to.Some? && ParseCanonicalUint(size) == Some(total)
      && (Wanted(total, r, p) <==> from.value <= p <= to.value)
  {
    EndToEnd(total, r, offset, length, true);
    ResolvedIsWanted(total, r, offset, length, true);
    RangeTextReadsBack(Part(total, offset, length, true), first, last, size);
    hide Resolve, ValidRange, RangeText, Splits, ParseCanonicalUint, AgentAccepts, Decode, Emit;
  }

  // ----- Unsatisfied ranges -----------------------------------------------

  function UnsatisfiedText(total: Uint64): string {
    "bytes */" + FormatUint(total)
  }

  function ParseUnsatisfied(s: string): Option<nat> {
    if |s| >= 8 && s[..8] == "bytes */" then ParseCanonicalUint(s[8..]) else None
  }

  /** The total size survives the error response, and nothing else is read as one. */
  lemma UnsatisfiedExact(s: string, total: Uint64)
    ensures ParseUnsatisfied(s) == Some(total) <==> s == UnsatisfiedText(total)
  {
    var text := UnsatisfiedText(total);
    assert text[..8] == "bytes */" && text[8..] == FormatUint(total);
    if |s| >= 8 {
      ParseCanonicalExact(s[8..], total);
      assert s == s[..8] + s[8..];
    }
  }
}

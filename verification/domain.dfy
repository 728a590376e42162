/**
  Shared vocabulary of the domain layer (internal/domain/domain.go): field-level
  validation errors, the date-only string type, identifier generation, the
  foreign parsers the validators consult, and the error taxonomy of the three
  resources.
 */
module Domain {
  import opened Wrappers

  /** A byte as produced by the random source. */
  newtype byte = x: int | 0 <= x < 256

  // ---------------------------------------------------------------------------
  // String length as Go measures it
  // ---------------------------------------------------------------------------

  /** Number of bytes of the UTF-8 encoding of one Unicode scalar value. */
  function Utf8Width(c: char): (w: nat)
    ensures 1 <= w <= 4
    ensures w == 1 <==> c as int < 0x80
  {
    if c as int < 0x80 then 1
    else if c as int < 0x800 then 2
    else if c as int < 0x10000 then 3
    else 4
  }

  /** Go's `len` on a string: the length of its UTF-8 encoding, not its number of characters. */
  function ByteLen(s: string): (n: nat)
    ensures |s| <= n <= 4 * |s|
    ensures n == 0 <==> s == ""
  {
    if s == [] then 0 else Utf8Width(s[0]) + ByteLen(s[1..])
  }

  /** Every character is ASCII. */
  predicate IsAscii(s: string) {
    forall i :: 0 <= i < |s| ==> s[i] as int < 0x80
  }

  /** On ASCII text Go's byte length is the character count. */
  lemma {:induction false} AsciiByteLen(s: string)
    requires IsAscii(s)
    ensures ByteLen(s) == |s|
  {
    if s != [] {
      assert IsAscii(s[1..]) by {
        forall i | 0 <= i < |s[1..]| ensures s[1..][i] as int < 0x80 {
          assert s[1..][i] == s[i + 1];
        }
      }
      AsciiByteLen(s[1..]);
    }
  }

  /** One non-ASCII character already makes the byte length exceed the character count. */
  lemma {:induction false} NonAsciiByteLen(s: string, i: nat)
    requires i < |s| && s[i] as int >= 0x80
    ensures ByteLen(s) > |s|
  {
    if i == 0 {
      assert ByteLen(s[1..]) >= |s[1..]|;
    } else {
      NonAsciiByteLen(s[1..], i - 1);
    }
  }

  // ---------------------------------------------------------------------------
  // Validation errors and foreign parsers
  // ---------------------------------------------------------------------------

  /** One entry of the JSON array a failed validation returns: `{message, field}`. */
  datatype ErrorResponse = ErrorResponse(message: string, field: string)

  /**
    The library predicates the validators consult: `isDate` stands for
    `time.Parse` with the layout "2006-01-02" succeeding, `isEmail` for the
    email regular expression matching. Both are inputs of the model.
   */
  datatype Parsers = Parsers(isDate: string -> bool, isEmail: string -> bool) {
    /** What the real parsers are known to do with the empty string: reject it. */
    predicate RejectsEmpty() {
      !isDate("") && !isEmail("")
    }
  }

  // ---------------------------------------------------------------------------
  // OnlyDate
  // ---------------------------------------------------------------------------

  /** A date kept as its "YYYY-MM-DD" text; `OnlyDate(s)` is Go's conversion `domain.OnlyDate(s)`. */
  datatype OnlyDate = OnlyDate(raw: string) {

    /** `OnlyDate.String`: gives back exactly the text the date was made from. */
    function String(): (s: string)
      ensures OnlyDate(s) == this
    {
      raw
    }

    /**
      The text parses with the date layout: the condition under which
      `OnlyDate.Value` returns instead of panicking. The repositories bind
      dates by value and `Value` has a pointer receiver, so the driver never
      calls it; the text reaches the server as it is, and the server's
      refusal of a bad date is a driver error like any other.
     */
    predicate InLayout(p: Parsers) {
      p.isDate(raw)
    }

    /** Go's `o != ""` on the underlying string. */
    predicate IsEmpty() {
      raw == ""
    }
  }

  /** Converting a string to a date and back is the identity. */
  lemma DateStringRoundTrip(s: string)
    ensures OnlyDate(s).String() == s
  {
  }

  // ---------------------------------------------------------------------------
  // Identifiers: lower-case hexadecimal of twelve random bytes
  // ---------------------------------------------------------------------------

  /** The digit `encoding/hex` writes for a nibble. */
  function HexDigit(d: int): (c: char)
    requires 0 <= d < 16
    ensures IsLowerHexChar(c)
  {
    if d < 10 then (48 + d) as char else (87 + d) as char
  }

  predicate IsLowerHexChar(c: char) {
    '0' <= c <= '9' || 'a' <= c <= 'f'
  }

  /** The nibble a hexadecimal digit denotes; `encoding/hex` also reads upper-case digits. */
  function HexValue(c: char): (r: Option<int>)
    ensures r.Some? ==> 0 <= r.value < 16
    ensures r.Some? <==> IsLowerHexChar(c) || 'A' <= c <= 'F'
  {
    if '0' <= c <= '9' then Some(c as int - 48)
    else if 'a' <= c <= 'f' then Some(c as int - 87)
    else if 'A' <= c <= 'F' then Some(c as int - 55)
    else None
  }

  lemma HexDigitValue(d: int)
    requires 0 <= d < 16
    ensures HexValue(HexDigit(d)) == Some(d)
  {
  }

  /** `hex.EncodeToString`: two lower-case digits per byte, high nibble first. */
  function HexEncode(bs: seq<byte>): (s: string)
    ensures |s| == 2 * |bs|
    ensures forall i :: 0 <= i < |s| ==> IsLowerHexChar(s[i])
  {
    if bs == [] then ""
    else [HexDigit(bs[0] as int / 16), HexDigit(bs[0] as int % 16)] + HexEncode(bs[1..])
  }

  /** `hex.DecodeString`: fails on an odd length or a non-hexadecimal character. */
  function HexDecode(s: string): (r: Option<seq<byte>>)
    ensures r.Some? ==> 2 * |r.value| == |s|
    decreases |s|
  {
    if |s| == 0 then Some([])
    else if |s| == 1 then None
    else
      match (HexValue(s[0]), HexValue(s[1]), HexDecode(s[2..]))
      case (Some(hi), Some(lo), Some(rest)) => Some([(hi * 16 + lo) as byte] + rest)
      case _ => None
  }

  /** Decoding an encoding gives back the bytes. */
  lemma {:induction false} HexRoundTrip(bs: seq<byte>)
    ensures HexDecode(HexEncode(bs)) == Some(bs)
  {
    if bs != [] {
      var s := HexEncode(bs);
      var b := bs[0] as int;
      assert s[2..] == HexEncode(bs[1..]);
      HexRoundTrip(bs[1..]);
      HexDigitValue(b / 16);
      HexDigitValue(b % 16);
      assert [(b / 16 * 16 + b % 16) as byte] + bs[1..] == bs;
    }
  }

  /** Distinct byte strings never share an encoding. */
  lemma HexInjective(a: seq<byte>, b: seq<byte>)
    requires HexEncode(a) == HexEncode(b)
    ensures a == b
  {
    HexRoundTrip(a);
    HexRoundTrip(b);
  }

  /** The number of random bytes `GenerateID` reads. */
  const IdBytes: nat := 12

  /**
    `GenerateID` with the random bytes taken as input: the identifier is their
    encoding, 24 lower-case hexadecimal characters that decode back to them.
   */
  function GenerateID(random: seq<byte>): (id: string)
    requires |random| == IdBytes
    ensures |id| == 24
    ensures forall i :: 0 <= i < |id| ==> IsLowerHexChar(id[i])
    ensures HexDecode(id) == Some(random)
  {
    HexRoundTrip(random);
    HexEncode(random)
  }

  /** Different random bytes give different identifiers. */
  lemma GenerateIDInjective(a: seq<byte>, b: seq<byte>)
    requires |a| == IdBytes && |b| == IdBytes
    requires GenerateID(a) == GenerateID(b)
    ensures a == b
  {
    HexInjective(a, b);
  }

  // ---------------------------------------------------------------------------
  // Errors
  // ---------------------------------------------------------------------------

  datatype Resource = Users | Projects | Tasks

  /** The three sentinels every resource package declares: ErrExists, ErrNotFound, ErrSearch. */
  datatype Kind = Exists | NotFound | SearchFailed

  /**
    What the database driver can report. `NoRows` is `sql.ErrNoRows`,
    `UniqueViolation` a `pq.Error` with that code name, `UndefinedColumn` and
    `SyntaxError` the server's answers to a query naming a missing column or
    an empty one, `MissingDestination` the scanner's refusal of a column the
    destination struct lacks; `Failure` stands for everything else.
   */
  datatype DbError =
    | NoRows
    | UniqueViolation
    | UndefinedColumn(column: string)
    | SyntaxError
    | MissingDestination(column: string)
    | Failure(detail: string)

  /** An error as the service layer returns it: a resource's sentinel or a driver error passed through. */
  datatype Error = Sentinel(resource: Resource, kind: Kind) | Driver(cause: DbError) {

    /** The text `Error()` returns for a sentinel. */
    function Message(): string
      requires Sentinel?
    {
      match (resource, kind)
      case (Tasks, Exists) => "task already exists"
      case (Tasks, NotFound) => "task not found"
      case (Tasks, SearchFailed) => "task search error"
      case (Projects, Exists) => "project already exists"
      case (Projects, NotFound) => "project not found"
      case (Projects, SearchFailed) => "project search error"
      case (Users, Exists) => "user already exists"
      case (Users, NotFound) => "user not found"
      case (Users, SearchFailed) => "user search error"
    }

    /** `Is`: a sentinel matches only itself. */
    predicate Is(target: Error) {
      this == target
    }
  }

  /** No two sentinels share a message, so comparing sentinels by identity or by text agrees. */
  lemma SentinelMessagesDistinct(a: Error, b: Error)
    requires a.Sentinel? && b.Sentinel?
    ensures a.Message() == b.Message() <==> a == b
    ensures a.Is(b) <==> a.Message() == b.Message()
  {
  }
}

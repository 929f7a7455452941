/** The `JSONB` column type of database/jsonb.go: a byte slice holding already-encoded
    JSON. Go distinguishes a nil slice from an empty one, and so does this model. */
module Jsonb {
  import opened Wrappers

  /** A `JSONB` value: the nil slice, or a (possibly empty) slice of bytes. */
  datatype Jsonb = Nil | Bytes(bytes: seq<byte>)

  /** What `Scan` receives from the driver: nil, a `[]byte`, or anything else. */
  datatype ScanSource = SrcNil | SrcBytes(data: seq<byte>) | SrcOther

  /** What `Value` hands to the driver: nil or a string (kept as its bytes). */
  datatype DriverValue = DriverNil | DriverText(text: seq<byte>)

  /** The bytes of the text "null". */
  const NullText: seq<byte> := [110, 117, 108, 108]

  /** The bytes a value holds; the nil slice holds none. */
  function Contents(j: Jsonb): seq<byte>
  {
    if j.Nil? then [] else j.bytes
  }

  /** `append(j[0:0], s...)`: the bytes of `s`; when `s` is empty the result keeps
      whether `j` was nil. */
  function AppendOnto(j: Jsonb, s: seq<byte>): (r: Jsonb)
    ensures Contents(r) == s
    ensures r.Nil? <==> j.Nil? && s == []
  {
    if s == [] then (if j.Nil? then Nil else Bytes([])) else Bytes(s)
  }

  /** `IsNull`: no bytes, or exactly the text "null". */
  function IsNull(j: Jsonb): bool
  {
    |Contents(j)| == 0 || Contents(j) == NullText
  }

  /** `Value`: nil for a null value, otherwise the bytes as a string. */
  function Value(j: Jsonb): (r: DriverValue)
    ensures r == DriverNil <==> IsNull(j)
    ensures r.DriverText? ==> r.text == Contents(j) && r.text != [] && r.text != NullText
  {
    if IsNull(j) then DriverNil else DriverText(Contents(j))
  }

  /** The value `Scan` stores. A source that is not a `[]byte` is treated as the nil
      byte slice: the type-assertion failure only builds an error that is discarded. */
  function ScanInto(j: Jsonb, src: ScanSource): (r: Jsonb)
    ensures src.SrcNil? ==> r == Nil
    ensures src.SrcBytes? ==> Contents(r) == src.data
    ensures src.SrcOther? ==> Contents(r) == [] && (r.Nil? <==> j.Nil?)
  {
    match src
    case SrcNil => Nil
    case SrcBytes(data) => AppendOnto(j, data)
    case SrcOther => AppendOnto(j, [])
  }

  /** `MarshalJSON`: "null" for the nil slice, otherwise the bytes unchanged (so a
      non-nil empty value marshals to no bytes at all). */
  function MarshalJson(m: Jsonb): (r: seq<byte>)
    ensures m.Nil? ==> r == NullText
    ensures m.Bytes? ==> r == m.bytes
  {
    if m.Nil? then NullText else m.bytes
  }

  /** `Equals`: `bytes.Equal`, under which the nil slice equals an empty one. */
  function Equals(j: Jsonb, j1: Jsonb): (r: bool)
    ensures r <==> Contents(j) == Contents(j1)
  {
    Contents(j) == Contents(j1)
  }

  /** A `*JSONB` destination: the slice it points to, updated in place. */
  class JsonbField {
    var value: Jsonb

    constructor (init: Jsonb)
      ensures value == init
    {
      value := init;
    }

    /** `Scan`: never reports an error. */
    method Scan(src: ScanSource) returns (err: Option<Error>)
      modifies this
      ensures value == ScanInto(old(value), src)
      ensures err == None
    {
      if src.SrcNil? {
        value := Nil;
        return None;
      }
      var s: seq<byte> := if src.SrcBytes? then src.data else [];
      value := AppendOnto(value, s);
      return None;
    }
  }

  /** `UnmarshalJSON`: fails on a nil pointer, otherwise stores a copy of `data`. */
  method UnmarshalJson(m: JsonbField?, data: seq<byte>) returns (err: Option<Error>)
    modifies if m != null then {m} else {}
    ensures m == null ==> err == Some(Message("json.RawMessage: UnmarshalJSON on nil pointer"))
    ensures m != null ==> err == None && m.value == AppendOnto(old(m.value), data)
  {
    if m == null {
      return Some(Message("json.RawMessage: UnmarshalJSON on nil pointer"));
    }
    m.value := AppendOnto(m.value, data);
    return None;
  }

  /** Unmarshalling non-empty bytes and marshalling again gives those bytes back;
      unmarshalling no bytes leaves "null" or no bytes, depending on whether the
      destination was nil. */
  lemma UnmarshalMarshalRoundTrip(j: Jsonb, data: seq<byte>)
    ensures data != [] ==> MarshalJson(AppendOnto(j, data)) == data
    ensures data == [] ==> MarshalJson(AppendOnto(j, data)) == (if j.Nil? then NullText else [])
  {
  }

  /** Scanning the text that `Value` produced stores a value with the same `Value`. */
  lemma ValueScanRoundTrip(j: Jsonb, k: Jsonb)
    requires Value(j).DriverText?
    ensures Value(ScanInto(k, SrcBytes(Value(j).text))) == Value(j)
    ensures Equals(ScanInto(k, SrcBytes(Value(j).text)), j)
  {
  }

  /** After scanning bytes, the value is null exactly when those bytes are empty or "null". */
  lemma ScanThenIsNull(j: Jsonb, data: seq<byte>)
    ensures IsNull(ScanInto(j, SrcBytes(data))) <==> data == [] || data == NullText
  {
  }

  /** `Equals` is an equivalence that identifies the nil slice with the empty one. */
  lemma EqualsIsEquivalence(a: Jsonb, b: Jsonb, c: Jsonb)
    ensures Equals(a, a)
    ensures Equals(a, b) == Equals(b, a)
    ensures Equals(a, b) && Equals(b, c) ==> Equals(a, c)
    ensures Equals(Nil, Bytes([]))
  {
  }
}

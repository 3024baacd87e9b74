/** The `EnrollType` enumeration and its wire codec
    (x-pack/agent/pkg/fleetapi/enroll_cmd.go, lines 18-63).

    A Go `EnrollType` is a named string, so any string is a value of the type;
    only the values registered in the canonical table can cross the wire.
    Go byte strings are modelled as `string`, one character per byte. */
module EnrollTypes {
  import opened Results

  /** An enrollment type: any string, registered or not. */
  datatype EnrollType = EnrollType(name: string)

  /** The only registered enrollment type. */
  const Permanent: EnrollType := EnrollType("PERMANENT")

  /** `mapEnrollType`: wire token to enrollment type. */
  const ForwardTable: map<string, EnrollType> := map["PERMANENT" := Permanent]

  /** No two wire tokens name the same enrollment type. */
  predicate Injective(m: map<string, EnrollType>) {
    forall k1, k2 :: k1 in m && k2 in m && m[k1] == m[k2] ==> k1 == k2
  }

  /** `r` maps every value of `m` back to the one key that `m` maps to it. */
  predicate IsInverse(m: map<string, EnrollType>, r: map<EnrollType, string>) {
    && r.Keys == m.Values
    && forall k :: k in m ==> r[m[k]] == k
  }

  /** `order` is a possible iteration order of a Go `range` over `m`:
      it visits keys of `m` only, and every key of `m`. */
  predicate Enumerates(m: map<string, EnrollType>, order: seq<string>) {
    && (forall i :: 0 <= i < |order| ==> order[i] in m)
    && (forall k :: k in m ==> k in order)
  }

  /** The loop in `init`: for each key `k` of `m`, in the order `order`,
      set `reverse[m[k]] := k`, starting from an empty map. */
  function RangeInto(m: map<string, EnrollType>, order: seq<string>): (r: map<EnrollType, string>)
    requires forall i :: 0 <= i < |order| ==> order[i] in m
    ensures forall k :: k in order ==> m[k] in r
    ensures forall v :: v in r ==> r[v] in order && r[v] in m && m[r[v]] == v
    decreases |order|
  {
    if |order| == 0 then map[]
    else
      var k := order[|order| - 1];
      RangeInto(m, order[..|order| - 1])[m[k] := k]
  }

  /** Whatever order `init` visits an injective table in, it builds that
      table's inverse. */
  lemma InitBuildsInverse(m: map<string, EnrollType>, order: seq<string>)
    requires Injective(m)
    requires Enumerates(m, order)
    ensures IsInverse(m, RangeInto(m, order))
  {
  }

  /** A table has at most one inverse. */
  lemma InverseIsUnique(m: map<string, EnrollType>, r1: map<EnrollType, string>, r2: map<EnrollType, string>)
    requires IsInverse(m, r1)
    requires IsInverse(m, r2)
    ensures r1 == r2
  {
  }

  /** The reverse table `init` builds does not depend on Go's map
      iteration order. */
  lemma InitOrderIrrelevant(m: map<string, EnrollType>, o1: seq<string>, o2: seq<string>)
    requires Injective(m)
    requires Enumerates(m, o1)
    requires Enumerates(m, o2)
    ensures RangeInto(m, o1) == RangeInto(m, o2)
  {
  }

  /** PERMANENT is the one registered type. */
  lemma RegisteredTypes()
    ensures ForwardTable.Values == {Permanent}
  {
    forall v | v in ForwardTable.Values
      ensures v == Permanent
    {
      var k :| k in ForwardTable && ForwardTable[k] == v;
    }
    assert ForwardTable["PERMANENT"] == Permanent;
  }

  lemma ForwardTableInjective()
    ensures Injective(ForwardTable)
  {
  }

  /** `reverseMapEnrollType` as `init` leaves it. */
  function ReverseTable(): (r: map<EnrollType, string>)
    ensures IsInverse(ForwardTable, r)
  {
    ForwardTableInjective();
    InitBuildsInverse(ForwardTable, ["PERMANENT"]);
    RangeInto(ForwardTable, ["PERMANENT"])
  }

  /** Any run of `init`, whatever its iteration order, yields `ReverseTable()`. */
  lemma InitYieldsReverseTable(order: seq<string>)
    requires Enumerates(ForwardTable, order)
    ensures RangeInto(ForwardTable, order) == ReverseTable()
  {
  }

  /** A character `json.Marshal` copies into a JSON string unescaped:
      printable ASCII other than the quote, the backslash and the three
      characters it escapes for HTML safety. */
  predicate PlainJsonChar(c: char) {
    ' ' <= c <= '~' && c != '"' && c != '\\' && c != '<' && c != '>' && c != '&'
  }

  /** `json.Marshal` of a Go string made only of plain characters. */
  function JsonString(s: string): string
    requires forall i :: 0 <= i < |s| ==> PlainJsonChar(s[i])
  {
    ['"'] + s + ['"']
  }

  lemma TableKeysArePlain()
    ensures forall k :: k in ForwardTable ==> forall i :: 0 <= i < |k| ==> PlainJsonChar(k[i])
  {
  }

  /** Errors of the codec. */
  datatype CodecError =
    | InvalidEnrollTypeReceived          // input too short to hold a token
    | UnsupportedEnrollType(value: string) // inner token not in the table
    | CannotSerializeUnknownType         // value not in the reverse table

  /** The receiver after `UnmarshalJSON`, and the error it returned. */
  datatype Unmarshalled = Unmarshalled(target: EnrollType, err: Option<CodecError>)

  /** The bytes between the first and the last. */
  function Inner(b: string): string
    requires |b| >= 2
  {
    b[1..|b| - 1]
  }

  /** `(*EnrollType).UnmarshalJSON`: decode `b` into the receiver, whose value
      before the call is `p`. The outer two bytes are dropped unchecked. */
  function Unmarshal(b: string, p: EnrollType): (u: Unmarshalled)
    ensures |b| <= 2 ==> u == Unmarshalled(p, Some(InvalidEnrollTypeReceived))
    ensures u.err.None? <==> |b| > 2 && Inner(b) in ForwardTable
    ensures u.err.None? ==> u.target == ForwardTable[Inner(b)] && u.target.name != ""
    ensures u.err.Some? ==> u.target == p
    ensures |b| > 2 && Inner(b) !in ForwardTable ==> u.err == Some(UnsupportedEnrollType(Inner(b)))
  {
    if |b| <= 2 then Unmarshalled(p, Some(InvalidEnrollTypeReceived))
    else
      var s := Inner(b);
      if s in ForwardTable then Unmarshalled(ForwardTable[s], None)
      else Unmarshalled(p, Some(UnsupportedEnrollType(s)))
  }

  /** `EnrollType.MarshalJSON`: the quoted wire token of a registered type. */
  function Marshal(p: EnrollType): (r: Result<string, CodecError>)
    ensures r.Failure? <==> p !in ForwardTable.Values
    ensures r.Failure? ==> r.error == CannotSerializeUnknownType
    ensures r.Success? ==>
              && |r.value| > 2 && r.value[0] == '"' && r.value[|r.value| - 1] == '"'
              && Inner(r.value) in ForwardTable && ForwardTable[Inner(r.value)] == p
  {
    var reverse := ReverseTable();
    if p !in reverse then Failure(CannotSerializeUnknownType)
    else
      TableKeysArePlain();
      Success(JsonString(reverse[p]))
  }

  /** Decoding what encoding produced gives back the encoded value, whatever
      the receiver held before. */
  lemma RoundTrip(p: EnrollType, prior: EnrollType)
    requires Marshal(p).Success?
    ensures Unmarshal(Marshal(p).value, prior) == Unmarshalled(p, None)
  {
  }

  /** PERMANENT encodes to its quoted token, and the empty type does not encode. */
  lemma MarshalExamples()
    ensures Marshal(Permanent) == Success("\"PERMANENT\"")
    ensures Marshal(EnrollType("")).Failure?
  {
    assert ReverseTable()[Permanent] == "PERMANENT";
    assert JsonString("PERMANENT") == "\"PERMANENT\"";
  }

  /** Encoding a decoded value gives back the input with its outer bytes
      replaced by quotes: the outer bytes are never inspected, so any input
      that decodes and is quoted round-trips exactly. */
  lemma DecodeThenEncode(b: string, prior: EnrollType)
    requires Unmarshal(b, prior).err.None?
    ensures Marshal(Unmarshal(b, prior).target) == Success(JsonString(Inner(b)))
    ensures b[0] == '"' && b[|b| - 1] == '"' ==> Marshal(Unmarshal(b, prior).target) == Success(b)
  {
    var p := Unmarshal(b, prior).target;
    var w := Marshal(p).value;
    ForwardTableInjective();
    assert Inner(w) == Inner(b);
    assert w == ['"'] + Inner(w) + ['"'];
    if b[0] == '"' && b[|b| - 1] == '"' {
      assert b == ['"'] + Inner(b) + ['"'];
    }
  }

  /** The outer bytes are not checked to be quotes. */
  lemma OuterBytesUnchecked(prior: EnrollType)
    ensures Unmarshal("xPERMANENTy", prior) == Unmarshalled(Permanent, None)
  {
    assert Inner("xPERMANENTy") == "PERMANENT";
  }

  /** Any input of at most two bytes is rejected and leaves the receiver as it was. */
  lemma ShortInputRejected(b: string, prior: EnrollType)
    requires |b| <= 2
    ensures Unmarshal(b, prior).err == Some(InvalidEnrollTypeReceived)
    ensures Unmarshal(b, prior).target == prior
  {
  }
}

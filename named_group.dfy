/** The catalog of TLS named groups: the entries of the IANA "TLS Supported
    Groups" registry that the library knows, each with its fixed 16-bit
    identifier, canonical name, display label and category (elliptic curve as
    in section 5.1.1 of RFC 8422, or finite-field Diffie-Hellman as in
    RFC 7919). */
module NamedGroups {
  import opened Uint16

  datatype NamedGroup =
    | Reserved
    | Secp256r1 | Secp384r1 | Secp521r1
    | X25519 | X448
    | Ffdhe2048 | Ffdhe3072 | Ffdhe4096 | Ffdhe6144 | Ffdhe8192

  datatype Option<T> = None | Some(value: T)

  /** Every case of the enumeration, in declaration order. */
  const AllCases: seq<NamedGroup> :=
    [Reserved, Secp256r1, Secp384r1, Secp521r1, X25519, X448,
     Ffdhe2048, Ffdhe3072, Ffdhe4096, Ffdhe6144, Ffdhe8192]

  /** The registry identifier of the group. */
  function Value(g: NamedGroup): (v: U16)
    ensures g == Reserved <==> v == 0
    ensures g.Ffdhe2048? || g.Ffdhe3072? || g.Ffdhe4096? || g.Ffdhe6144? || g.Ffdhe8192?
            <==> 0x0100 <= v < 0x0200
  {
    match g
    case Reserved => 0x0000
    case Secp256r1 => 0x0017
    case Secp384r1 => 0x0018
    case Secp521r1 => 0x0019
    case X25519 => 0x001D
    case X448 => 0x001E
    case Ffdhe2048 => 0x0100
    case Ffdhe3072 => 0x0101
    case Ffdhe4096 => 0x0102
    case Ffdhe6144 => 0x0103
    case Ffdhe8192 => 0x0104
  }

  /** The case whose identifier is `v`, if there is one: identifiers outside
      the catalog are not an error, they are simply unknown. */
  function FromValue(v: U16): (r: Option<NamedGroup>)
    ensures r.Some? ==> Value(r.value) == v
  {
    FindValue(AllCases, v)
  }

  /** The first case of `cases` whose identifier is `v`. */
  function FindValue(cases: seq<NamedGroup>, v: U16): (r: Option<NamedGroup>)
    ensures r.Some? ==> r.value in cases && Value(r.value) == v
    ensures r.None? ==> forall g :: g in cases ==> Value(g) != v
  {
    if cases == [] then None
    else if Value(cases[0]) == v then Some(cases[0])
    else FindValue(cases[1..], v)
  }

  /** The lower-case canonical name of the group. */
  function Name(g: NamedGroup): (s: string)
    ensures |s| > 0
    ensures forall i :: 0 <= i < |s| ==> IsLowerAlnum(s[i])
  {
    match g
    case Reserved => "reserved"
    case Secp256r1 => "secp256r1"
    case Secp384r1 => "secp384r1"
    case Secp521r1 => "secp521r1"
    case X25519 => "x25519"
    case X448 => "x448"
    case Ffdhe2048 => "ffdhe2048"
    case Ffdhe3072 => "ffdhe3072"
    case Ffdhe4096 => "ffdhe4096"
    case Ffdhe6144 => "ffdhe6144"
    case Ffdhe8192 => "ffdhe8192"
  }

  predicate IsLowerAlnum(c: char) {
    'a' <= c <= 'z' || '0' <= c <= '9'
  }

  /** The human-readable label of the group (Chinese display text). */
  function Label(g: NamedGroup): (s: string)
    ensures |s| > 0
  {
    match g
    case Reserved => "保留"
    case Secp256r1 => "secp256r1 椭圆曲线"
    case Secp384r1 => "secp384r1 椭圆曲线"
    case Secp521r1 => "secp521r1 椭圆曲线"
    case X25519 => "X25519 椭圆曲线"
    case X448 => "X448 椭圆曲线"
    case Ffdhe2048 => "FFDHE2048 有限域"
    case Ffdhe3072 => "FFDHE3072 有限域"
    case Ffdhe4096 => "FFDHE4096 有限域"
    case Ffdhe6144 => "FFDHE6144 有限域"
    case Ffdhe8192 => "FFDHE8192 有限域"
  }

  predicate IsEllipticCurve(g: NamedGroup) {
    g.Secp256r1? || g.Secp384r1? || g.Secp521r1? || g.X25519? || g.X448?
  }

  predicate IsFiniteField(g: NamedGroup) {
    g.Ffdhe2048? || g.Ffdhe3072? || g.Ffdhe4096? || g.Ffdhe6144? || g.Ffdhe8192?
  }

  /** The groups recommended for use, in preference order. */
  function RecommendedGroups(): (r: seq<NamedGroup>)
    ensures |r| > 0 && r[0] == X25519
    ensures X25519 in r && Secp256r1 in r && Secp384r1 in r && Secp521r1 in r
    ensures Ffdhe2048 in r && Ffdhe3072 in r
    ensures Reserved !in r
    ensures forall i, j :: 0 <= i < j < |r| ==> r[i] != r[j]
  {
    [X25519, Secp256r1, Secp384r1, Secp521r1, Ffdhe2048, Ffdhe3072]
  }

  /** One entry of the array a group is projected to: an integer or a string. */
  datatype ArrayValue = IntValue(i: int) | StringValue(s: string)

  /** The group as an associative array with the keys "value" and "label". */
  function ToArray(g: NamedGroup): (a: map<string, ArrayValue>)
    ensures a.Keys == {"value", "label"} && |a| == 2
    ensures a["value"] == IntValue(Value(g))
    ensures a["label"] == StringValue(Label(g))
  {
    map["value" := IntValue(Value(g)), "label" := StringValue(Label(g))]
  }

  /** `AllCases` lists every case exactly once. */
  lemma AllCasesComplete(g: NamedGroup)
    ensures g in AllCases
    ensures forall i, j :: 0 <= i < j < |AllCases| ==> AllCases[i] != AllCases[j]
  {
  }

  /** Distinct cases have distinct identifiers, so the identifier map is
      injective and `FromValue` is its inverse. */
  lemma ValueInjective(g: NamedGroup, h: NamedGroup)
    ensures Value(g) == Value(h) ==> g == h
  {
  }

  lemma FromValueOfValue(g: NamedGroup)
    ensures FromValue(Value(g)) == Some(g)
  {
  }

  /** An identifier is unknown exactly when no case carries it; unknown
      identifiers are never mistaken for a case. */
  lemma FromValueUnknown(v: U16)
    ensures FromValue(v).None? <==> forall g :: Value(g) != v
  {
  }

  /** The elliptic-curve cases are exactly SECP256R1, SECP384R1, SECP521R1,
      X25519 and X448; equivalently, the non-zero identifiers below 0x0100. */
  lemma EllipticCurveCases(g: NamedGroup)
    ensures IsEllipticCurve(g) <==> g in {Secp256r1, Secp384r1, Secp521r1, X25519, X448}
    ensures IsEllipticCurve(g) <==> 0 < Value(g) < 0x0100
  {
  }

  /** The finite-field cases are exactly FFDHE2048 to FFDHE8192; equivalently,
      the identifiers in the FFDHE block 0x0100 to 0x01FF of RFC 7919. */
  lemma FiniteFieldCases(g: NamedGroup)
    ensures IsFiniteField(g) <==> g in {Ffdhe2048, Ffdhe3072, Ffdhe4096, Ffdhe6144, Ffdhe8192}
    ensures IsFiniteField(g) <==> 0x0100 <= Value(g) < 0x0200
  {
  }

  /** Every case other than RESERVED is in exactly one category; RESERVED is
      in neither. */
  lemma CategoriesExclusive(g: NamedGroup)
    ensures g != Reserved ==> IsEllipticCurve(g) != IsFiniteField(g)
    ensures g == Reserved ==> !IsEllipticCurve(g) && !IsFiniteField(g)
  {
  }

  /** Different cases have different names. */
  lemma NameInjective(g: NamedGroup, h: NamedGroup)
    ensures Name(g) == Name(h) ==> g == h
  {
  }

  /** The array projection loses nothing: the group can be recovered from it. */
  lemma ToArrayInjective(g: NamedGroup, h: NamedGroup)
    ensures ToArray(g) == ToArray(h) ==> g == h
  {
  }
}

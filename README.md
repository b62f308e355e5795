# TLS Supported Groups: named-group catalog and extension codec

A Dafny model of two components of the `tourze/tls-extension-secure` PHP
library:

- **`NamedGroup`**, the closed enumeration of TLS named groups from the IANA
  "TLS Supported Groups" registry (section 4.2.7 of RFC 8446, section 5.1.1
  of RFC 8422, RFC 7919 for the FFDHE groups): eleven cases with a fixed
  16-bit value, a lower-case name, a display label, the two category
  predicates `isEllipticCurve` / `isFiniteField`, the `toArray` projection and
  the ordered `getRecommendedGroups` list (`named_group.dfy`).
- **`SupportedGroupsExtension`**, the extension object holding an ordered
  list of 16-bit group identifiers: `setGroups`, `getGroups`, the
  de-duplicating, chainable `addGroup`, `isApplicableForVersion`, and the
  `extension_data` codec `encode` / `decode` — a two-byte big-endian byte
  count equal to twice the number of groups, then each identifier as two
  big-endian bytes (section 3.4 and 4.2.7 of RFC 8446).

Files:

- `uint16.dfy` — bytes, 16-bit values and their two-byte big-endian form.
- `named_group.dfy` — module `NamedGroups`: the catalog as a datatype with
  total functions and lemmas over it.
- `group_list_wire.dfy` — module `GroupListWire`: the wire format as pure
  functions (`Encode`, `Decode`) with both round trips proved.
- `supported_groups_extension.dfy` — module `SupportedGroupsExtensions`: the
  extension as a class with a `seq<U16>` field updated in place; `Encode` and
  `Decode` are loops over two-byte chunks proved against the wire functions;
  the add-group update is specified by `WithGroup` and, over several calls,
  related to an independent "first occurrences" definition.

The PHP implementation files (`src/Extension/NamedGroup.php`,
`src/Extension/SupportedGroupsExtension.php`) are not part of this model; it
is written against the behaviour the two PHPUnit files assert, and where they
are silent it follows the library's design description (noted below).
`decode` fails with `InvalidExtensionDataException` in the library; here it
returns `Err(...)` of a `Result`.

## Model

| member | source | states |
|---|---|---|
| `NamedGroups.Value` | tests/Extension/NamedGroupTest.php:22-35 | each case has its fixed registry value, a 16-bit number; only RESERVED is 0 and exactly the FFDHE cases lie in 0x0100..0x01FF |
| `NamedGroups.ValueInjective` | tests/Extension/NamedGroupTest.php:22-35 | distinct cases have distinct values |
| `NamedGroups.FromValueOfValue` | tests/Extension/NamedGroupTest.php:22-35 | looking a case up by its value gives back that case (value-to-case is the inverse of case-to-value) |
| `NamedGroups.FromValueUnknown` | tests/Extension/NamedGroupTest.php:22-35 | lookup reports "unknown" exactly for the 16-bit values no case carries |
| `NamedGroups.AllCasesComplete` | tests/Extension/NamedGroupTest.php:139-154 | the list of cases holds every case exactly once |
| `NamedGroups.Name` | tests/Extension/NamedGroupTest.php:40-53 | every case, RESERVED included, has a non-empty name of lower-case letters and digits |
| `NamedGroups.NameInjective` | tests/Extension/NamedGroupTest.php:40-53 | distinct cases have distinct names |
| `NamedGroups.Label` | tests/Extension/NamedGroupTest.php:139-154 | every case, RESERVED included, has a non-empty label |
| `NamedGroups.EllipticCurveCases` | tests/Extension/NamedGroupTest.php:76-92 | `isEllipticCurve` holds exactly for SECP256R1, SECP384R1, SECP521R1, X25519, X448, i.e. the non-zero values below 0x0100 |
| `NamedGroups.FiniteFieldCases` | tests/Extension/NamedGroupTest.php:97-113 | `isFiniteField` holds exactly for FFDHE2048..FFDHE8192, i.e. the values in 0x0100..0x01FF |
| `NamedGroups.CategoriesExclusive` | tests/Extension/NamedGroupTest.php:159-171 | every case except RESERVED is in exactly one category; RESERVED is in neither |
| `NamedGroups.RecommendedGroups` | tests/Extension/NamedGroupTest.php:118-134 | the recommended list is non-empty, starts with X25519, contains SECP256R1, SECP384R1, SECP521R1, FFDHE2048 and FFDHE3072, never RESERVED, and no group twice |
| `NamedGroups.ToArray` | tests/Extension/NamedGroupTest.php:176-202 | the array has exactly the two keys `value` and `label`, holding the case's value and its label |
| `NamedGroups.ToArrayInjective` | tests/Extension/NamedGroupTest.php:176-202 | the case can be recovered from its array |
| `Uint16.ReadAfterWrite` | tests/Extension/SupportedGroupsExtensionTest.php:80-86 | reading back the two big-endian bytes of a 16-bit value gives the value |
| `Uint16.WriteAfterRead` | tests/Extension/SupportedGroupsExtensionTest.php:80-86 | every byte pair is the big-endian form of exactly one 16-bit value |
| `GroupListWire.Encode` | tests/Extension/SupportedGroupsExtensionTest.php:73-87 | the body is 2 + 2×count bytes, starts with the big-endian byte count 2×count, and continues with the group list encoding |
| `GroupListWire.EncodeListAt` | tests/Extension/SupportedGroupsExtensionTest.php:80-86 | group i occupies bytes 2i (high byte) and 2i+1 (low byte) of the list |
| `GroupListWire.DecodeListAt` | tests/Extension/SupportedGroupsExtensionTest.php:54-68 | group i read from a list is the big-endian value of bytes 2i and 2i+1 |
| `GroupListWire.Decode` | tests/Extension/SupportedGroupsExtensionTest.php:92-100 | an accepted body is exactly 2 + its declared length long and holds at most 32767 groups; a body shorter than its declared length is refused with `LengthExceedsData` |
| `GroupListWire.DecodeOfEncode` | tests/Extension/SupportedGroupsExtensionTest.php:54-68 | decoding an encoded list gives the same identifiers in the same order, duplicates and unknown identifiers included |
| `GroupListWire.EncodeOfDecode` | tests/Extension/SupportedGroupsExtensionTest.php:54-68 | whatever decode accepts is exactly the encoding of what it returns |
| `GroupListWire.EncodeInjective` | tests/Extension/SupportedGroupsExtensionTest.php:54-68 | different lists have different encodings |
| `GroupListWire.EmptyList` | tests/Extension/SupportedGroupsExtensionTest.php:73-87 | the empty list encodes as `00 00`, which decodes to the empty list |
| `GroupListWire.TwoGroupsVector` | tests/Extension/SupportedGroupsExtensionTest.php:73-87 | `[0x0017, 0x0018]` encodes as `00 04 00 17 00 18` |
| `GroupListWire.TruncatedBodyRefused` | tests/Extension/SupportedGroupsExtensionTest.php:92-100 | `00 02 00` (two bytes announced, one present) is refused |
| `SupportedGroupsExtensions.WithGroup` | tests/Extension/SupportedGroupsExtensionTest.php:124-135 | after adding g, g is present, the old list is a prefix, only g may be new, at most one entry is added, and a duplicate-free list stays duplicate-free |
| `SupportedGroupsExtensions.WithGroupIdempotent` | tests/Extension/SupportedGroupsExtensionTest.php:133-135 | adding a group a second time changes nothing |
| `SupportedGroupsExtensions.WithGroupsKeepsEntries` | tests/Extension/SupportedGroupsExtensionTest.php:117-147 | adding several groups keeps the old entries as a prefix, ends with exactly the old and added identifiers, and never creates a duplicate |
| `SupportedGroupsExtensions.WithGroupsAppendsFirstOccurrences` | tests/Extension/SupportedGroupsExtensionTest.php:137-147 | adding several groups appends, in order of first addition, each of them not already present |
| `SupportedGroupsExtensions.AddingFromEmpty` | tests/Extension/SupportedGroupsExtensionTest.php:141-147 | from an empty extension, adding a sequence yields its distinct elements in order of first occurrence |
| `SupportedGroupsExtensions.SupportedGroupsExtension.constructor` | tests/Extension/SupportedGroupsExtensionTest.php:34-37 | a new extension has an empty group list |
| `SupportedGroupsExtensions.SupportedGroupsExtension.SetGroups` | tests/Extension/SupportedGroupsExtensionTest.php:39-42 | after `setGroups(g)`, `getGroups()` is exactly g, same order, duplicates kept |
| `SupportedGroupsExtensions.SupportedGroupsExtension.AddGroup` | tests/Extension/SupportedGroupsExtensionTest.php:124-135 | returns the same object; appends g when absent, leaves the list unchanged when present; never introduces a duplicate |
| `SupportedGroupsExtensions.SupportedGroupsExtension.Encode` | tests/Extension/SupportedGroupsExtensionTest.php:73-87 | the loop produces exactly the wire encoding of the current list |
| `SupportedGroupsExtensions.SupportedGroupsExtension.Decode` | tests/Extension/SupportedGroupsExtensionTest.php:54-100 | fails exactly when the body is malformed, with the same reason, and otherwise returns a new extension holding the decoded list |
| `SupportedGroupsExtensions.ApplicableToTls12And13` | tests/Extension/SupportedGroupsExtensionTest.php:105-112 | the extension applies to versions "1.2" and "1.3" |
| `SupportedGroupsExtensions.AddGroupScenario` | tests/Extension/SupportedGroupsExtensionTest.php:117-139 | adding 0x0017, 0x0018, 0x0017, 0x001D gives `[0x0017, 0x0018, 0x001D]` |
| `SupportedGroupsExtensions.ChainedAddGroupScenario` | tests/Extension/SupportedGroupsExtensionTest.php:141-147 | chaining 0x001D, 0x0017, 0x0018 gives them in that order |
| `SupportedGroupsExtensions.EncodeDecodeScenario` | tests/Extension/SupportedGroupsExtensionTest.php:54-87 | `[0x0017, 0x0018]` is written as `00 04 00 17 00 18` and read back unchanged |

## Left out

- `getType()` / `ExtensionType::SUPPORTED_GROUPS`: the extension-type registry is a separate package and is not part of this model.
- `toSelectItem`: nothing about it is asserted.
- `InvalidExtensionDataException`: an empty subclass of `InvalidArgumentException`; decode failure is the `Err` value of a `Result` carrying the reason.
- `GroupListWire.Decode`: the refusal of a body with trailing bytes after the declared list, or with an odd declared length, follows the library's design description; the tests pin down only the truncated case.
- `SupportedGroupsExtensions.SupportedGroupsExtension.IsApplicableForVersion`: answers false for every version other than "1.2" and "1.3" as the design describes; the tests only assert the two true cases.
- `NamedGroups.RecommendedGroups`: the implementation's exact list is not part of this model; the model's list is the six groups the tests require, X25519 first, and its contract states only what the tests assert.
- `NamedGroups.Label`: the exact label strings are copied as literals but only non-emptiness and the `toArray` consistency are proved.
- `NamedGroups.FromValue`: models PHP's `tryFrom` on the backed enum, which the tests do not call; it is the partner that makes the value map's injectivity checkable.
- `SupportedGroupsExtensions.SupportedGroupsExtension.Encode`: requires at most 32767 groups so that the byte count fits the two-byte length field; what the library does beyond that is not modelled.
- `setGroups` with integers outside 0..65535: identifiers are typed as 16-bit values, so such lists cannot be formed.
- The design description says only non-RESERVED cases must have a non-empty name and label; the tests require it of RESERVED too, and the model follows the tests.

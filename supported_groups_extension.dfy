/** The Supported Groups extension object: an ordered list of 16-bit group
    identifiers (insertion order is preference order), built up in place,
    written to and read from its `extension_data` body. */
module SupportedGroupsExtensions {
  import opened Uint16
  import opened GroupListWire

  /** No identifier occurs twice. */
  predicate NoDuplicates(s: seq<U16>) {
    forall i, j :: 0 <= i < j < |s| ==> s[i] != s[j]
  }

  /** The list after adding `g` once: appended when absent, otherwise the
      same list. */
  function WithGroup(groups: seq<U16>, g: U16): (r: seq<U16>)
    ensures g in r && groups <= r && |r| <= |groups| + 1
    ensures forall x :: x in r <==> x in groups || x == g
    ensures NoDuplicates(groups) ==> NoDuplicates(r)
  {
    if g in groups then groups else groups + [g]
  }

  /** The list after adding each of `xs` in turn. */
  function WithGroups(groups: seq<U16>, xs: seq<U16>): seq<U16>
    decreases |xs|
  {
    if xs == [] then groups else WithGroups(WithGroup(groups, xs[0]), xs[1..])
  }

  /** The elements of `s` that do not occur in `excluded`, in order. */
  function Without(s: seq<U16>, excluded: seq<U16>): (r: seq<U16>)
    ensures |r| <= |s|
    ensures forall x :: x in r <==> x in s && x !in excluded
  {
    if s == [] then []
    else if s[0] in excluded then Without(s[1..], excluded)
    else [s[0]] + Without(s[1..], excluded)
  }

  /** Reference definition of "the distinct elements of `s` in order of first
      occurrence": the first element, then the rest without it. */
  function FirstOccurrences(s: seq<U16>): seq<U16>
    decreases |s|
  {
    if s == [] then [] else [s[0]] + FirstOccurrences(Without(s[1..], [s[0]]))
  }

  /** Adding the same group twice is the same as adding it once. */
  lemma WithGroupIdempotent(groups: seq<U16>, g: U16)
    ensures WithGroup(WithGroup(groups, g), g) == WithGroup(groups, g)
  {
  }

  /** Adding a sequence of groups keeps the existing entries as a prefix, ends
      with exactly the old entries and the added ones, and never creates a
      duplicate. */
  lemma {:induction false} WithGroupsKeepsEntries(groups: seq<U16>, xs: seq<U16>)
    ensures groups <= WithGroups(groups, xs)
    ensures forall x :: x in WithGroups(groups, xs) <==> x in groups || x in xs
    ensures NoDuplicates(groups) ==> NoDuplicates(WithGroups(groups, xs))
    decreases |xs|
  {
    if xs != [] {
      WithGroupsKeepsEntries(WithGroup(groups, xs[0]), xs[1..]);
      assert forall x :: x in xs <==> x == xs[0] || x in xs[1..];
    }
  }

  lemma {:induction false} WithoutWithout(s: seq<U16>, a: seq<U16>, b: seq<U16>)
    ensures Without(Without(s, a), b) == Without(s, a + b)
  {
    if s != [] {
      WithoutWithout(s[1..], a, b);
    }
  }

  lemma {:induction false} WithoutNothing(s: seq<U16>)
    ensures Without(s, []) == s
  {
    if s != [] {
      WithoutNothing(s[1..]);
    }
  }

  /** Adding `xs` to `groups` appends the first occurrences of those `xs`
      that were not already present, in the order they were added. */
  lemma {:induction false} WithGroupsAppendsFirstOccurrences(groups: seq<U16>, xs: seq<U16>)
    ensures WithGroups(groups, xs) == groups + FirstOccurrences(Without(xs, groups))
    decreases |xs|
  {
    if xs != [] {
      WithGroupsAppendsFirstOccurrences(WithGroup(groups, xs[0]), xs[1..]);
      if xs[0] !in groups {
        AppendNewGroup(groups, xs);
      }
    }
  }

  /** The step of the lemma above where the next group is new. */
  lemma AppendNewGroup(groups: seq<U16>, xs: seq<U16>)
    requires xs != [] && xs[0] !in groups
    requires WithGroups(groups + [xs[0]], xs[1..])
             == groups + [xs[0]] + FirstOccurrences(Without(xs[1..], groups + [xs[0]]))
    ensures WithGroups(groups, xs) == groups + FirstOccurrences(Without(xs, groups))
  {
    var x0 := xs[0];
    var rest := Without(xs[1..], groups);
    assert Without(xs, groups) == [x0] + rest;
    assert ([x0] + rest)[1..] == rest;
    WithoutWithout(xs[1..], groups, [x0]);
    var tail := FirstOccurrences(Without(rest, [x0]));
    ConcatAssociative(groups, [x0], tail);
    calc {
      WithGroups(groups, xs);
      WithGroups(groups + [x0], xs[1..]);
      groups + [x0] + FirstOccurrences(Without(rest, [x0]));
      groups + ([x0] + FirstOccurrences(Without(rest, [x0])));
      groups + FirstOccurrences([x0] + rest);
    }
  }

  lemma ConcatAssociative(a: seq<U16>, b: seq<U16>, c: seq<U16>)
    ensures a + b + c == a + (b + c)
  {
  }

  /** Starting from an empty list, adding `xs` one by one keeps each
      identifier once, in order of first addition. */
  lemma AddingFromEmpty(xs: seq<U16>)
    ensures WithGroups([], xs) == FirstOccurrences(xs)
  {
    WithGroupsAppendsFirstOccurrences([], xs);
    WithoutNothing(xs);
  }

  /** TLS versions for which the extension is defined. */
  const ApplicableVersions: set<string> := {"1.2", "1.3"}

  class SupportedGroupsExtension {
    /** The group identifiers, most preferred first. */
    var groups: seq<U16>

    /** A new extension holds no groups. */
    constructor ()
      ensures groups == []
    {
      groups := [];
    }

    function GetGroups(): seq<U16>
      reads this
    {
      groups
    }

    /** Replaces the list by `newGroups` as given: same order, and duplicates
        are kept. */
    method SetGroups(newGroups: seq<U16>)
      modifies this
      ensures groups == newGroups && GetGroups() == newGroups
    {
      groups := newGroups;
    }

    /** Adds `g` at the end unless it is already present, and returns this
        same object so that calls can be chained. */
    method AddGroup(g: U16) returns (self: SupportedGroupsExtension)
      modifies this
      ensures self == this
      ensures groups == WithGroup(old(groups), g)
      ensures g in old(groups) ==> groups == old(groups)
      ensures g !in old(groups) ==> groups == old(groups) + [g]
      ensures NoDuplicates(old(groups)) ==> NoDuplicates(groups)
    {
      if g !in groups {
        groups := groups + [g];
      }
      self := this;
    }

    predicate IsApplicableForVersion(version: string) {
      version in ApplicableVersions
    }

    /** The `extension_data` body: the byte count, then each identifier. */
    method Encode() returns (data: seq<Byte>)
      requires |groups| <= MaxGroups
      ensures data == GroupListWire.Encode(groups)
    {
      data := ToBigEndian(2 * |groups|);
      var i := 0;
      while i < |groups|
        invariant 0 <= i <= |groups|
        invariant data == ToBigEndian(2 * |groups|) + EncodeList(groups[..i])
      {
        EncodeListAppend(groups[..i], groups[i]);
        assert groups[..i + 1] == groups[..i] + [groups[i]];
        data := data + ToBigEndian(groups[i]);
        i := i + 1;
      }
      assert groups[..i] == groups;
    }

    /** Reads an extension from its `extension_data` body, or says why the
        body is malformed. */
    static method Decode(data: seq<Byte>) returns (r: Result<SupportedGroupsExtension>)
      ensures r.Err? <==> GroupListWire.Decode(data).Err?
      ensures r.Err? ==> r.error == GroupListWire.Decode(data).error
      ensures r.Ok? ==> fresh(r.value) && r.value.groups == GroupListWire.Decode(data).value
    {
      if |data| < 2 {
        return Err(MissingLength);
      }
      var length := FromBigEndian(data[0], data[1]);
      if |data| - 2 < length {
        return Err(LengthExceedsData);
      }
      if |data| - 2 > length {
        return Err(TrailingData);
      }
      if length % 2 != 0 {
        return Err(OddLength);
      }
      var received: seq<U16> := [];
      var i := 2;
      while i < |data|
        invariant 2 <= i <= |data| && i % 2 == 0
        invariant received == DecodeList(data[2..i])
      {
        DecodeListAppend(data[2..i], data[i], data[i + 1]);
        assert data[2..i + 2] == data[2..i] + [data[i], data[i + 1]];
        received := received + [FromBigEndian(data[i], data[i + 1])];
        i := i + 2;
      }
      assert data[2..i] == data[2..];
      var ext := new SupportedGroupsExtension();
      ext.SetGroups(received);
      return Ok(ext);
    }
  }

  /** The extension applies to TLS 1.2 and TLS 1.3. */
  lemma ApplicableToTls12And13(ext: SupportedGroupsExtension)
    ensures ext.IsApplicableForVersion("1.2") && ext.IsApplicableForVersion("1.3")
  {
  }

  /** Adding 0x0017, 0x0018, 0x0017 again, then 0x001D gives
      [0x0017, 0x0018, 0x001D]: the repeated identifier is ignored. */
  method AddGroupScenario() returns (groups: seq<U16>)
    ensures groups == [0x0017, 0x0018, 0x001D]
  {
    var ext := new SupportedGroupsExtension();
    var same := ext.AddGroup(0x0017);
    assert same == ext && ext.groups == [0x0017];
    same := ext.AddGroup(0x0018);
    assert ext.groups == [0x0017, 0x0018];
    same := ext.AddGroup(0x0017);
    assert ext.groups == [0x0017, 0x0018];
    same := ext.AddGroup(0x001D);
    groups := ext.GetGroups();
  }

  /** Chaining 0x001D, 0x0017, 0x0018 on a new extension keeps that order. */
  method ChainedAddGroupScenario() returns (groups: seq<U16>)
    ensures groups == [0x001D, 0x0017, 0x0018]
  {
    var ext := new SupportedGroupsExtension();
    var next := ext.AddGroup(0x001D);
    assert ext.groups == [0x001D];
    next := next.AddGroup(0x0017);
    assert ext.groups == [0x001D, 0x0017];
    next := next.AddGroup(0x0018);
    groups := ext.GetGroups();
  }

  /** The encode/decode scenario: [0x0017, 0x0018] is written as
      `00 04 00 17 00 18` and read back as the same list. */
  method EncodeDecodeScenario() returns (data: seq<Byte>, decoded: seq<U16>)
    ensures data == [0x00, 0x04, 0x00, 0x17, 0x00, 0x18]
    ensures decoded == [0x0017, 0x0018]
  {
    var ext := new SupportedGroupsExtension();
    ext.SetGroups([0x0017, 0x0018]);
    data := ext.Encode();
    TwoGroupsVector();
    DecodeOfEncode([0x0017, 0x0018]);
    var r := SupportedGroupsExtension.Decode(data);
    decoded := r.value.GetGroups();
  }
}

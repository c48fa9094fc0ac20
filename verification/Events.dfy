/** The event envelope and the per-organization channel names. */
module Events {
  import opened Outcomes

  type Nibble = n: nat | n < 16

  /** A UUID as its 32 hexadecimal digits. */
  type Uuid = s: seq<Nibble> | |s| == 32 witness seq(32, _ => 0)

  datatype Event = Event(id: Uuid, org: Uuid, payload: string)

  const CHANNEL_PREFIX := "realtime:org:"

  function DigitChar(d: Nibble): char {
    if d < 10 then ('0' as int + d) as char else ('a' as int + (d - 10)) as char
  }

  function Digits(s: seq<Nibble>): string {
    if s == [] then "" else [DigitChar(s[0])] + Digits(s[1..])
  }

  /** Groups of the given sizes, and the rest, with hyphens between them. */
  function Grouped(s: seq<Nibble>, sizes: seq<Nibble>): string {
    if sizes == [] || sizes[0] > |s| then Digits(s)
    else Digits(s[..sizes[0]]) + ("-" + Grouped(s[sizes[0]..], sizes[1..]))
  }

  /** str(uuid): groups of 8-4-4-4-12 digits. */
  function Str(u: Uuid): string { Grouped(u, [8, 4, 4, 4]) }

  function DigitValue(c: char): Option<Nibble> {
    if '0' <= c <= '9' then Some(c as int - '0' as int)
    else if 'a' <= c <= 'f' then Some(c as int - 'a' as int + 10)
    else if 'A' <= c <= 'F' then Some(c as int - 'A' as int + 10)
    else None
  }

  function Values(s: string): (r: Option<seq<Nibble>>)
    ensures r.Some? ==> |r.value| == |s|
  {
    if s == "" then Some([]) else
      var d, rest := DigitValue(s[0]), Values(s[1..]);
      if d.Some? && rest.Some? then Some([d.value] + rest.value) else None
  }

  /** s.replace(pattern, "") */
  function Remove(s: string, pattern: string): string
    requires pattern != ""
  {
    if s == "" then ""
    else if pattern <= s then Remove(s[|pattern|..], pattern)
    else [s[0]] + Remove(s[1..], pattern)
  }

  /** s.replace("-", "") */
  function DropHyphens(s: string): string {
    if s == "" then "" else (if s[0] == '-' then "" else [s[0]]) + DropHyphens(s[1..])
  }

  predicate IsBrace(c: char) { c == '{' || c == '}' }

  function StripBraces(s: string): string {
    if s != "" && IsBrace(s[0]) then StripBraces(s[1..])
    else if s != "" && IsBrace(s[|s| - 1]) then StripBraces(s[..|s| - 1])
    else s
  }

  /** uuid.UUID(text), None standing for its ValueError. */
  function ParseUuid(text: string): Option<Uuid> {
    var hex := DropHyphens(StripBraces(Remove(Remove(text, "urn:"), "uuid:")));
    if |hex| != 32 then None else
      match Values(hex)
      case None => None
      case Some(v) => Some(v)
  }

  function OrgChannel(org: Uuid): string { CHANNEL_PREFIX + Str(org) }

  function OrgIdFromChannel(channel: string): Option<Uuid> {
    if CHANNEL_PREFIX <= channel then ParseUuid(channel[|CHANNEL_PREFIX|..]) else None
  }

  // ---- org_id_from_channel inverts org_channel -------------------------------

  predicate IsDigit(c: char) { '0' <= c <= '9' || 'a' <= c <= 'f' }

  lemma {:induction false} DigitsArePlain(s: seq<Nibble>)
    ensures |Digits(s)| == |s|
    ensures forall c :: c in Digits(s) ==> IsDigit(c)
  {
    if s != [] { DigitsArePlain(s[1..]); }
  }

  lemma {:induction false} RemoveAbsent(s: string, pattern: string)
    requires pattern != "" && pattern[0] !in s
    ensures Remove(s, pattern) == s
  {
    if s != "" {
      assert s[0] in s;
      RemoveAbsent(s[1..], pattern);
    }
  }

  lemma {:induction false} DropNothing(s: string)
    requires '-' !in s
    ensures DropHyphens(s) == s
  {
    if s != "" {
      assert s[0] in s;
      DropNothing(s[1..]);
    }
  }

  lemma {:induction false} DropConcat(a: string, b: string)
    ensures DropHyphens(a + b) == DropHyphens(a) + DropHyphens(b)
  {
    if a == "" {
      assert a + b == b;
    } else {
      assert (a + b)[1..] == a[1..] + b;
      DropConcat(a[1..], b);
    }
  }

  lemma {:induction false} DigitsSplit(s: seq<Nibble>, k: nat)
    requires k <= |s|
    ensures Digits(s) == Digits(s[..k]) + Digits(s[k..])
  {
    if k > 0 {
      DigitsSplit(s[1..], k - 1);
      assert s[..k][1..] == s[1..][..k - 1] && s[k..] == s[1..][k - 1..];
    }
  }

  lemma {:induction false} HyphensDropOut(s: seq<Nibble>, sizes: seq<Nibble>)
    ensures DropHyphens(Grouped(s, sizes)) == Digits(s)
  {
    DigitsArePlain(s);
    if sizes == [] || sizes[0] > |s| {
      DropNothing(Digits(s));
    } else {
      var k := sizes[0];
      var rest := Grouped(s[k..], sizes[1..]);
      HyphensDropOut(s[k..], sizes[1..]);
      DigitsSplit(s, k);
      assert '-' !in Digits(s[..k]) by { DigitsArePlain(s[..k]); }
      DropNothing(Digits(s[..k]));
      DropConcat(Digits(s[..k]), "-" + rest);
      assert ("-" + rest)[1..] == rest;
    }
  }

  lemma {:induction false} GroupedIsPlain(s: seq<Nibble>, sizes: seq<Nibble>)
    ensures |Grouped(s, sizes)| >= |s|
    ensures forall c :: c in Grouped(s, sizes) ==> IsDigit(c) || c == '-'
  {
    DigitsArePlain(s);
    if sizes != [] && sizes[0] <= |s| {
      GroupedIsPlain(s[sizes[0]..], sizes[1..]);
      DigitsArePlain(s[..sizes[0]]);
    }
  }

  lemma DigitRoundTrip(d: Nibble)
    ensures DigitValue(DigitChar(d)) == Some(d)
  {
  }

  lemma {:induction false} ValuesOfDigits(s: seq<Nibble>)
    ensures Values(Digits(s)) == Some(s)
  {
    if s != [] {
      DigitRoundTrip(s[0]);
      ValuesOfDigits(s[1..]);
      assert Digits(s)[1..] == Digits(s[1..]);
      assert [s[0]] + s[1..] == s;
    }
  }

  lemma ParseStr(u: Uuid)
    ensures ParseUuid(Str(u)) == Some(u)
  {
    hide Grouped, Remove, DropHyphens, Digits, Values;
    var s := Str(u);
    GroupedIsPlain(u, [8, 4, 4, 4]);
    assert s[0] in s && s[|s| - 1] in s;
    assert 'u' !in s;
    RemoveAbsent(s, "urn:");
    RemoveAbsent(s, "uuid:");
    HyphensDropOut(u, [8, 4, 4, 4]);
    DigitsArePlain(u);
    ValuesOfDigits(u);
  }

  // ---- What is printed ---------------------------------------------------------

  lemma {:induction false} DigitsAt(s: seq<Nibble>, i: nat)
    requires i < |s|
    ensures |Digits(s)| == |s| && Digits(s)[i] == "0123456789abcdef"[s[i]]
  {
    DigitsArePlain(s);
    if i > 0 { DigitsAt(s[1..], i - 1); }
  }

  /** A channel is named by the prefix and the digits in groups of 8, 4, 4, 4 and 12. */
  lemma ChannelIsNamed(u: Uuid)
    ensures OrgChannel(u)
            == "realtime:org:" + (Digits(u[..8]) + ("-" + (Digits(u[8..12]) + ("-" + (Digits(u[12..16]) + ("-" +
               (Digits(u[16..20]) + ("-" + Digits(u[20..])))))))))
  {
    hide Digits;
    var v, w, x := u[8..], u[12..], u[16..];
    assert v[4..] == w && w[4..] == x && x[4..] == u[20..];
    assert v[..4] == u[8..12] && w[..4] == u[12..16] && x[..4] == u[16..20];
    assert Grouped(u[20..], []) == Digits(u[20..]);
    assert [8, 4, 4, 4][1..] == [4, 4, 4] && [4, 4, 4][1..] == [4, 4] && [4, 4][1..] == [4] && [4][1..] == [];
    assert Grouped(x, [4]) == Digits(x[..4]) + ("-" + Grouped(x[4..], []));
    assert Grouped(w, [4, 4]) == Digits(w[..4]) + ("-" + Grouped(x, [4]));
    assert Grouped(v, [4, 4, 4]) == Digits(v[..4]) + ("-" + Grouped(w, [4, 4]));
  }

  // ---- What else is read as a UUID --------------------------------------------

  function Capital(c: char): char { if 'a' <= c <= 'f' then (c as int - 32) as char else c }

  function Capitals(s: string): string { if s == "" then "" else [Capital(s[0])] + Capitals(s[1..]) }

  lemma {:induction false} CapitalsReadAlike(s: string)
    ensures Values(Capitals(s)) == Values(s) && |Capitals(s)| == |s|
  {
    if s != "" {
      CapitalsReadAlike(s[1..]);
      assert DigitValue(Capital(s[0])) == DigitValue(s[0]);
      assert Capitals(s)[1..] == Capitals(s[1..]);
    }
  }

  lemma {:induction false} CapitalsKeepHyphens(s: string)
    ensures DropHyphens(Capitals(s)) == Capitals(DropHyphens(s))
  {
    if s != "" {
      CapitalsKeepHyphens(s[1..]);
      assert Capitals(s)[1..] == Capitals(s[1..]) && (Capitals(s)[0] == '-' <==> s[0] == '-');
      if s[0] != '-' {
        assert DropHyphens(s) == [s[0]] + DropHyphens(s[1..]) && DropHyphens(s)[1..] == DropHyphens(s[1..]);
        assert Capitals(DropHyphens(s)) == [Capital(s[0])] + Capitals(DropHyphens(s[1..]));
      } else {
        assert DropHyphens(s) == DropHyphens(s[1..]);
        assert DropHyphens(Capitals(s)) == DropHyphens(Capitals(s)[1..]);
      }
    }
  }

  lemma {:induction false} CapitalsArePlain(s: string)
    requires forall c :: c in s ==> IsDigit(c) || c == '-'
    ensures forall c :: c in Capitals(s) ==> '0' <= c <= '9' || 'A' <= c <= 'F' || c == '-'
  {
    if s != "" {
      assert s[0] in s;
      CapitalsArePlain(s[1..]);
    }
  }

  lemma UrnIsRemoved(s: string)
    requires 'u' !in s
    ensures Remove(Remove("urn:uuid:" + s, "urn:"), "uuid:") == s
  {
    hide Remove;
    var rest := "uuid:" + s;
    assert ("urn:uuid:" + s)[4..] == rest && rest[5..] == s;
    RemovePrefix(s);
    RemoveAbsent(s, "uuid:");
  }

  lemma RemoveUrn(s: string)
    requires 'u' !in s
    ensures Remove("uuid:" + s, "urn:") == "uuid:" + s
  {
    var uuid, uid, tail := "uuid:" + s, "uid:" + s, "id:" + s;
    assert uuid[1..] == uid && uid[1..] == tail;
    assert 'u' !in tail;
    RemoveAbsent(tail, "urn:");
    assert uuid[1] == 'u' && uid[1] == 'i';
    assert Remove(uid, "urn:") == [uid[0]] + tail;
    assert Remove(uuid, "urn:") == [uuid[0]] + Remove(uid, "urn:");
  }

  lemma RemovePrefix(s: string)
    requires 'u' !in s
    ensures Remove("urn:uuid:" + s, "urn:") == "uuid:" + s
    ensures Remove("uuid:" + s, "uuid:") == Remove(s, "uuid:")
  {
    var urn, uuid := "urn:uuid:" + s, "uuid:" + s;
    assert urn[4..] == uuid && uuid[5..] == s;
    RemoveUrn(s);
  }

  /** Braces, capitals and the URN prefix make no difference. */
  lemma ParseLenient(u: Uuid)
    ensures ParseUuid("urn:uuid:{" + Capitals(Str(u)) + "}") == Some(u)
  {
    hide Grouped, Remove, DropHyphens, Digits, Values, Capitals;
    var s := Capitals(Str(u));
    var braced := "{" + s + "}";
    GroupedIsPlain(u, [8, 4, 4, 4]);
    CapitalsArePlain(Str(u));
    CapitalsReadAlike(Str(u));
    CapitalsKeepHyphens(Str(u));
    UrnIsRemoved(braced);
    assert "urn:uuid:{" + s + "}" == "urn:uuid:" + braced;
    assert s != "" && s[0] in s && s[|s| - 1] in s;
    BracesAreStripped(s);
    HyphensDropOut(u, [8, 4, 4, 4]);
    DigitsArePlain(u);
    CapitalsReadAlike(Digits(u));
    ValuesOfDigits(u);
  }

  lemma BracesAreStripped(s: string)
    requires s != "" && !IsBrace(s[0]) && !IsBrace(s[|s| - 1])
    ensures StripBraces("{" + s + "}") == s
  {
    var open, all := s + "}", "{" + s + "}";
    assert all[1..] == open && all[0] == '{';
    assert open[..|open| - 1] == s && open[|open| - 1] == '}' && open[0] == s[0];
    assert StripBraces(all) == StripBraces(open);
    assert StripBraces(open) == StripBraces(s);
  }

  /** A message published for an organization is dispatched to that organization. */
  lemma ChannelRoundTrip(org: Uuid)
    ensures OrgIdFromChannel(OrgChannel(org)) == Some(org)
  {
    assert OrgChannel(org)[|CHANNEL_PREFIX|..] == Str(org);
    ParseStr(org);
  }

  /** Two organizations never share a channel. */
  lemma ChannelsAreDistinct(a: Uuid, b: Uuid)
    ensures OrgChannel(a) == OrgChannel(b) <==> a == b
  {
    ChannelRoundTrip(a);
    ChannelRoundTrip(b);
  }
}

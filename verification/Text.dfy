/** The few Python string operations the model relies on. */
module Text {

  /** str.isspace, which strip() removes. */
  predicate IsSpace(c: char) {
    var n := c as int;
    || 9 <= n <= 13 || 28 <= n <= 32 || n == 0x85 || n == 0xA0 || n == 0x1680
    || 0x2000 <= n <= 0x200A || n == 0x2028 || n == 0x2029 || n == 0x202F || n == 0x205F || n == 0x3000
  }

  /** One by one: tab to carriage return, the separators, space, next line, no-break
      space and the Unicode spaces. */
  lemma SpaceIsOneOf(c: char)
    ensures IsSpace(c) <==> c as int in {
        9, 10, 11, 12, 13, 28, 29, 30, 31, 32, 133, 160, 5760, 8192, 8193, 8194, 8195, 8196, 8197, 8198, 8199, 8200,
        8201, 8202, 8232, 8233, 8239, 8287, 12288 }
  {
  }

  function TrimLeft(s: string): string {
    if s != "" && IsSpace(s[0]) then TrimLeft(s[1..]) else s
  }

  function TrimRight(s: string): string {
    if s != "" && IsSpace(s[|s| - 1]) then TrimRight(s[..|s| - 1]) else s
  }

  /** str.strip() */
  function Strip(s: string): string { TrimRight(TrimLeft(s)) }

  /** No white space at either end. */
  predicate Trimmed(s: string) {
    s == "" || (!IsSpace(s[0]) && !IsSpace(s[|s| - 1]))
  }

  lemma StripOfTrimmed(s: string)
    requires Trimmed(s)
    ensures Strip(s) == s
  {
  }

  /** strip() takes away white space only, and all of it at both ends. */
  lemma {:induction false} StripMeaning(s: string) returns (before: string, after: string)
    ensures s == before + Strip(s) + after && Trimmed(Strip(s))
    ensures forall i :: 0 <= i < |before| ==> IsSpace(before[i])
    ensures forall i :: 0 <= i < |after| ==> IsSpace(after[i])
  {
    var left := TrimLeft(s);
    before := LeftPart(s);
    after := RightPart(left);
  }

  lemma {:induction false} LeftPart(s: string) returns (before: string)
    ensures s == before + TrimLeft(s) && (TrimLeft(s) == "" || !IsSpace(TrimLeft(s)[0]))
    ensures forall i :: 0 <= i < |before| ==> IsSpace(before[i])
  {
    before := "";
    if s != "" && IsSpace(s[0]) {
      before := LeftPart(s[1..]);
      before := [s[0]] + before;
    }
  }

  lemma {:induction false} RightPart(s: string) returns (after: string)
    ensures s == TrimRight(s) + after && (TrimRight(s) == "" || !IsSpace(TrimRight(s)[|TrimRight(s)| - 1]))
    ensures forall i :: 0 <= i < |after| ==> IsSpace(after[i])
    decreases |s|
  {
    after := "";
    if s != "" && IsSpace(s[|s| - 1]) {
      after := RightPart(s[..|s| - 1]);
      after := after + [s[|s| - 1]];
    }
  }

  /** str.lower() on ASCII letters. */
  function LowerChar(c: char): char {
    if 'A' <= c <= 'Z' then ((c as int) + 32) as char else c
  }

  function Lower(s: string): string {
    if s == "" then "" else [LowerChar(s[0])] + Lower(s[1..])
  }

  /** Capitals become small letters, everything else stays. */
  lemma {:induction false} LowerMeaning(s: string, i: nat)
    requires i < |s|
    ensures |Lower(s)| == |s|
    ensures Lower(s)[i] == if 'A' <= s[i] <= 'Z' then s[i] - 'A' + 'a' else s[i]
  {
    if i > 0 { LowerMeaning(s[1..], i - 1); } else if |s| > 1 { LowerMeaning(s[1..], 0); }
  }

  /** str(n) for a natural number. */
  function Decimal(n: nat): string {
    if n < 10 then [('0' as int + n) as char]
    else Decimal(n / 10) + [('0' as int + n % 10) as char]
  }

  predicate IsDigit(c: char) { '0' <= c <= '9' }

  lemma {:induction false} DecimalShape(n: nat)
    ensures Decimal(n) != "" && (n > 0 ==> Decimal(n)[0] != '0') && forall c :: c in Decimal(n) ==> IsDigit(c)
  {
    if n >= 10 { DecimalShape(n / 10); }
  }

  /** int(s) */
  function Number(s: string): int {
    if s == "" then 0 else 10 * Number(s[..|s| - 1]) + (s[|s| - 1] as int - '0' as int)
  }

  lemma {:induction false} NumberOfDecimal(n: nat)
    ensures Number(Decimal(n)) == n
  {
    if n < 10 {
      assert Number([]) == 0;
      assert Decimal(n)[..0] == [];
    } else {
      NumberOfDecimal(n / 10);
      assert Decimal(n)[..|Decimal(n)| - 1] == Decimal(n / 10);
    }
  }

  /** Different numbers print differently. */
  lemma DecimalIsInjective(m: nat, n: nat)
    ensures Decimal(m) == Decimal(n) <==> m == n
  {
    NumberOfDecimal(m);
    NumberOfDecimal(n);
  }

  // ---- Splitting at a separator that one side does not contain ---------------------

  function FirstIndex(s: string, c: char): nat {
    if s == "" || s[0] == c then 0 else 1 + FirstIndex(s[1..], c)
  }

  lemma {:induction false} FirstIndexAfter(a: string, c: char, x: string)
    requires c !in a
    ensures FirstIndex(a + [c] + x, c) == |a|
  {
    if a != "" {
      assert a[0] in a;
      assert (a + [c] + x)[1..] == a[1..] + [c] + x;
      FirstIndexAfter(a[1..], c, x);
    }
  }

  function LastIndex(s: string, c: char): int {
    if s == "" then -1 else if s[|s| - 1] == c then |s| - 1 else LastIndex(s[..|s| - 1], c)
  }

  lemma {:induction false} LastIndexBefore(a: string, c: char, x: string)
    requires c !in x
    ensures LastIndex(a + [c] + x, c) == |a|
  {
    if x != "" {
      assert x[|x| - 1] in x;
      var s := a + [c] + x;
      assert s[..|s| - 1] == a + [c] + x[..|x| - 1];
      LastIndexBefore(a, c, x[..|x| - 1]);
    }
  }

  lemma SplitFirst(a: string, x: string, b: string, y: string, c: char)
    requires c !in a && c !in b && a + [c] + x == b + [c] + y
    ensures a == b && x == y
  {
    FirstIndexAfter(a, c, x);
    FirstIndexAfter(b, c, y);
    var s, t := a + [c] + x, b + [c] + y;
    assert a == s[..|a|] && b == t[..|b|] && x == s[|a| + 1..] && y == t[|b| + 1..];
  }

  lemma SplitLast(a: string, x: string, b: string, y: string, c: char)
    requires c !in x && c !in y && a + [c] + x == b + [c] + y
    ensures a == b && x == y
  {
    LastIndexBefore(a, c, x);
    LastIndexBefore(b, c, y);
    var s, t := a + [c] + x, b + [c] + y;
    assert a == s[..|a|] && b == t[..|b|] && x == s[|a| + 1..] && y == t[|b| + 1..];
  }
}

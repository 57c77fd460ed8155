/** Python `str` and `int` operations that the timetabling core relies on,
    written with Python's own semantics: `startswith`, the `in` substring test,
    `split`/`rsplit` on one character, `split(pattern, 1)`, `strip()`, `upper()`,
    `str(int)` and `int(str)`. */
module PyStr {

  import opened Wrappers

  /** `s.startswith(p)` */
  predicate StartsWith(s: string, p: string) {
    |p| <= |s| && s[..|p|] == p
  }

  /** `p` occurs in `s` at position `i`. */
  predicate OccursAt(s: string, p: string, i: int) {
    0 <= i && i + |p| <= |s| && s[i..i + |p|] == p
  }

  /** Position of the first occurrence of `p` in `s` at or after `from`. */
  function FindFrom(s: string, p: string, from: nat): (r: Option<nat>)
    ensures r.Some? ==> from <= r.value && OccursAt(s, p, r.value)
    ensures r.Some? ==> forall j :: from <= j < r.value ==> !OccursAt(s, p, j)
    ensures r.None? ==> forall j :: from <= j ==> !OccursAt(s, p, j)
    decreases |s| - from
  {
    if from + |p| > |s| then None
    else if s[from..from + |p|] == p then Some(from)
    else FindFrom(s, p, from + 1)
  }

  /** Position of the first occurrence of `p` in `s` (`s.find(p)` when it is not -1). */
  function Find(s: string, p: string): Option<nat> {
    FindFrom(s, p, 0)
  }

  /** `p in s` */
  predicate Contains(s: string, p: string) {
    Find(s, p).Some?
  }

  lemma ContainsIff(s: string, p: string)
    ensures Contains(s, p) <==> exists i :: OccursAt(s, p, i)
  {
    var r := Find(s, p);
    assert r.None? ==> forall j :: 0 <= j ==> !OccursAt(s, p, j);
  }

  lemma StartsWithContains(s: string, p: string)
    requires StartsWith(s, p)
    ensures Contains(s, p)
  {
    assert OccursAt(s, p, 0);
    ContainsIff(s, p);
  }

  /** The text after the first occurrence of `p`: `s.split(p, 1)[1]`, which
      Python can only index when `p in s`. */
  function AfterFirst(s: string, p: string): string
    requires Contains(s, p)
  {
    var k := Find(s, p).value;
    s[k + |p|..]
  }

  /** `s.split(sep)` for a one-character separator: every occurrence splits,
      and empty fields are kept. */
  function Split(s: string, sep: char): (parts: seq<string>)
    ensures |parts| >= 1
    decreases |s|
  {
    if s == [] then [""]
    else
      var init := Split(s[..|s| - 1], sep);
      var c := s[|s| - 1];
      if c == sep then init + [""]
      else init[..|init| - 1] + [init[|init| - 1] + [c]]
  }

  /** `sep.join(parts)` */
  function Join(parts: seq<string>, sep: char): string
    requires |parts| >= 1
  {
    if |parts| == 1 then parts[0]
    else Join(parts[..|parts| - 1], sep) + [sep] + parts[|parts| - 1]
  }

  /** Splitting on one character and the split of the prefix before the last character. */
  lemma SplitSnoc(s: string, sep: char)
    requires s != []
    ensures s[|s| - 1] == sep ==> Split(s, sep) == Split(s[..|s| - 1], sep) + [""]
    ensures s[|s| - 1] != sep ==>
      var init := Split(s[..|s| - 1], sep);
      Split(s, sep) == init[..|init| - 1] + [init[|init| - 1] + [s[|s| - 1]]]
  {
  }

  /** No field of a split holds the separator. */
  lemma {:induction false} SplitFieldsHaveNoSep(s: string, sep: char)
    ensures forall i :: 0 <= i < |Split(s, sep)| ==> sep !in Split(s, sep)[i]
    decreases |s|
  {
    if s != [] {
      var init := Split(s[..|s| - 1], sep);
      SplitFieldsHaveNoSep(s[..|s| - 1], sep);
      SplitSnoc(s, sep);
      var c := s[|s| - 1];
      var parts := Split(s, sep);
      if c != sep {
        forall i | 0 <= i < |parts| ensures sep !in parts[i] {
          if i < |parts| - 1 {
            assert parts[i] == init[i];
          } else {
            assert parts[i] == init[|init| - 1] + [c];
          }
        }
      } else {
        forall i | 0 <= i < |parts| ensures sep !in parts[i] {
          if i < |parts| - 1 {
            assert parts[i] == init[i];
          }
        }
      }
    }
  }

  /** Appending a character to the last field appends it to the joined text. */
  lemma JoinExtendLast(parts: seq<string>, sep: char, c: char)
    requires |parts| >= 1
    ensures Join(parts[..|parts| - 1] + [parts[|parts| - 1] + [c]], sep) == Join(parts, sep) + [c]
  {
    var q := parts[..|parts| - 1] + [parts[|parts| - 1] + [c]];
    if |parts| > 1 {
      assert q[..|q| - 1] == parts[..|parts| - 1];
      assert Join(parts[..|parts| - 1], sep) + [sep] + (parts[|parts| - 1] + [c])
          == Join(parts[..|parts| - 1], sep) + [sep] + parts[|parts| - 1] + [c];
    }
  }

  /** Adding an empty last field appends a separator to the joined text. */
  lemma JoinEmptyLast(parts: seq<string>, sep: char)
    requires |parts| >= 1
    ensures Join(parts + [""], sep) == Join(parts, sep) + [sep]
  {
    assert (parts + [""])[..|parts|] == parts;
  }

  /** Splitting and joining again gives back the string, and no field holds
      the separator: the fields are exactly the text between separators. */
  lemma {:induction false} SplitJoin(s: string, sep: char)
    ensures Join(Split(s, sep), sep) == s
    ensures forall i :: 0 <= i < |Split(s, sep)| ==> sep !in Split(s, sep)[i]
    decreases |s|
  {
    SplitFieldsHaveNoSep(s, sep);
    if s != [] {
      var c := s[|s| - 1];
      SplitJoin(s[..|s| - 1], sep);
      SplitSnoc(s, sep);
      assert s == s[..|s| - 1] + [c];
      if c != sep {
        JoinExtendLast(Split(s[..|s| - 1], sep), sep, c);
      } else {
        JoinEmptyLast(Split(s[..|s| - 1], sep), sep);
      }
    }
  }

  /** A string with no separator splits into itself alone. */
  lemma {:induction false} SplitNoSep(s: string, sep: char)
    requires sep !in s
    ensures Split(s, sep) == [s]
    decreases |s|
  {
    if s != [] {
      SplitNoSep(s[..|s| - 1], sep);
      assert s == s[..|s| - 1] + [s[|s| - 1]];
    }
  }

  /** Splitting `a + [sep] + b` where `b` has no separator: the last field is `b`
      and the others are those of `a`. */
  lemma {:induction false} SplitSnocField(a: string, sep: char, b: string)
    requires sep !in b
    ensures Split(a + [sep] + b, sep) == Split(a, sep) + [b]
    decreases |b|
  {
    if b == [] {
      assert (a + [sep] + b)[..|a + [sep] + b| - 1] == a;
    } else {
      var b' := b[..|b| - 1];
      SplitSnocField(a, sep, b');
      var s := a + [sep] + b;
      assert s[..|s| - 1] == a + [sep] + b';
      assert b == b' + [b[|b| - 1]];
    }
  }

  /** `rsplit(sep, 1)[1]`: the text after the last separator, which exists only
      when the separator occurs. */
  function AfterLast(s: string, sep: char): Option<string> {
    var parts := Split(s, sep);
    if |parts| >= 2 then Some(parts[|parts| - 1]) else None
  }

  /** The characters `str.isspace()` accepts. */
  predicate IsSpace(c: char) {
    || c == ' ' || c == '\t' || c == '\n' || c == '\r' || c == '\U{000B}' || c == '\U{000C}'
    || ('\U{001C}' <= c <= '\U{001F}') || c == '\U{0085}' || c == '\U{00A0}' || c == '\U{1680}'
    || ('\U{2000}' <= c <= '\U{200A}') || c == '\U{2028}' || c == '\U{2029}' || c == '\U{202F}'
    || c == '\U{205F}' || c == '\U{3000}'
  }

  /** `s.lstrip()` */
  function StripLeft(s: string): (r: string)
    ensures |r| <= |s| && r == s[|s| - |r|..]
    ensures r == [] || !IsSpace(r[0])
  {
    if s != [] && IsSpace(s[0]) then StripLeft(s[1..]) else s
  }

  /** `s.rstrip()` */
  function StripRight(s: string): (r: string)
    ensures |r| <= |s| && r == s[..|r|]
    ensures r == [] || !IsSpace(r[|r| - 1])
  {
    if s != [] && IsSpace(s[|s| - 1]) then StripRight(s[..|s| - 1]) else s
  }

  /** `s.strip()` */
  function Strip(s: string): string {
    StripRight(StripLeft(s))
  }

  /** Stripping a string that neither starts nor ends with whitespace changes nothing. */
  lemma StripNoSpace(s: string)
    requires s == [] || (!IsSpace(s[0]) && !IsSpace(s[|s| - 1]))
    ensures Strip(s) == s
  {
  }

  /** `c.upper()` for the characters whose upper case is one character of
      ASCII or Latin-1: a-z and à-þ (except the division sign). */
  function UpperChar(c: char): char {
    if 'a' <= c <= 'z' then (c as int - 32) as char
    else if '\U{00E0}' <= c <= '\U{00FE}' && c != '\U{00F7}' then (c as int - 32) as char
    else c
  }

  /** `s.upper()` */
  function Upper(s: string): (r: string)
    ensures |r| == |s|
    ensures forall i :: 0 <= i < |s| ==> r[i] == UpperChar(s[i])
  {
    if s == [] then [] else [UpperChar(s[0])] + Upper(s[1..])
  }

  predicate IsDigit(c: char) {
    '0' <= c <= '9'
  }

  function DigitValue(c: char): nat
    requires IsDigit(c)
  {
    c as int - '0' as int
  }

  function DigitChar(d: nat): (c: char)
    requires d < 10
    ensures IsDigit(c) && DigitValue(c) == d
  {
    ('0' as int + d) as char
  }

  /** `str(n)` for a natural number: decimal digits, no leading zero. */
  function NatToString(n: nat): (s: string)
    ensures |s| >= 1 && AllDigits(s)
  {
    if n < 10 then [DigitChar(n)] else NatToString(n / 10) + [DigitChar(n % 10)]
  }

  /** `str(n)` */
  function IntToString(n: int): string {
    if n < 0 then "-" + NatToString(-n) else NatToString(n)
  }

  /** The value of a string of decimal digits. */
  function DigitsValue(ds: string): nat
    requires forall i :: 0 <= i < |ds| ==> IsDigit(ds[i])
  {
    if ds == [] then 0 else DigitsValue(ds[..|ds| - 1]) * 10 + DigitValue(ds[|ds| - 1])
  }

  /** The digit strings `int()` accepts: digits, with single underscores
      allowed between two digits. */
  predicate ValidDigitGroups(ds: string) {
    |ds| > 0 && IsDigit(ds[0]) && IsDigit(ds[|ds| - 1]) && GroupChars(ds)
  }

  /** Every character is a digit or an underscore, and no underscore is
      followed by another. */
  predicate GroupChars(ds: string) {
    ds == [] || (
      var n := |ds| - 1;
      && (IsDigit(ds[n]) || (ds[n] == '_' && (n == 0 || ds[n - 1] != '_')))
      && GroupChars(ds[..n]))
  }

  /** The value of the digits of a string, underscores skipped. */
  function GroupsValue(ds: string): nat {
    if ds == [] then 0
    else
      var n := |ds| - 1;
      if IsDigit(ds[n]) then GroupsValue(ds[..n]) * 10 + DigitValue(ds[n]) else GroupsValue(ds[..n])
  }

  /** `int(s)` for a string: surrounding whitespace is ignored, one optional
      sign, then digit groups; anything else raises ValueError (`None` here). */
  function ParseInt(s: string): Option<int> {
    ParseSigned(Strip(s))
  }

  /** `int()` of a string with no surrounding whitespace. */
  function ParseSigned(t: string): Option<int> {
    if |t| > 0 && (t[0] == '-' || t[0] == '+') then
      match ParseDigitGroups(t[1..])
      case None => None
      case Some(n) => var v: int := n; Some(if t[0] == '-' then -v else v)
    else
      match ParseDigitGroups(t)
      case None => None
      case Some(n) => Some(n)
  }

  /** The value of an unsigned digit string, when `int()` accepts it. */
  function ParseDigitGroups(ds: string): Option<nat> {
    if ValidDigitGroups(ds) then Some(GroupsValue(ds)) else None
  }

  lemma {:induction false} NatToStringValue(n: nat)
    ensures DigitsValue(NatToString(n)) == n
  {
    if n >= 10 {
      NatToStringValue(n / 10);
      var s := NatToString(n);
      assert s[..|s| - 1] == NatToString(n / 10);
    }
  }

  lemma {:induction false} GroupsValueOfDigits(ds: string)
    requires forall i :: 0 <= i < |ds| ==> IsDigit(ds[i])
    ensures GroupsValue(ds) == DigitsValue(ds)
  {
    if ds != [] {
      GroupsValueOfDigits(ds[..|ds| - 1]);
    }
  }

  predicate AllDigits(ds: string) {
    forall i :: 0 <= i < |ds| ==> IsDigit(ds[i])
  }

  lemma {:induction false} GroupCharsOfDigits(ds: string)
    requires AllDigits(ds)
    ensures GroupChars(ds)
  {
    if ds != [] {
      GroupCharsOfDigits(ds[..|ds| - 1]);
    }
  }

  lemma DigitGroupsOfDigits(ds: string)
    requires |ds| > 0 && AllDigits(ds)
    ensures ValidDigitGroups(ds) && GroupsValue(ds) == DigitsValue(ds)
  {
    GroupCharsOfDigits(ds);
    GroupsValueOfDigits(ds);
  }

  lemma ParseDigitGroupsOfDigits(ds: string)
    requires |ds| > 0 && AllDigits(ds)
    ensures ParseDigitGroups(ds) == Some(DigitsValue(ds))
  {
    DigitGroupsOfDigits(ds);
  }

  lemma ParseDigits(ds: string)
    requires |ds| > 0 && AllDigits(ds)
    ensures ParseSigned(ds) == Some(DigitsValue(ds) as int)
  {
    ParseDigitGroupsOfDigits(ds);
  }

  lemma ParseSignedMinus(t: string, v: nat)
    requires |t| > 0 && t[0] == '-' && ParseDigitGroups(t[1..]) == Some(v)
    ensures ParseSigned(t) == Some(-(v as int))
  {
  }

  lemma ParseNegatedDigits(ds: string)
    requires |ds| > 0 && AllDigits(ds)
    ensures ParseSigned("-" + ds) == Some(-(DigitsValue(ds) as int))
  {
    var t := "-" + ds;
    assert t[1..] == ds;
    ParseDigitGroupsOfDigits(ds);
    ParseSignedMinus(t, DigitsValue(ds));
    assert ParseSigned(t) == Some(-(DigitsValue(ds) as int));
  }

  /** A rendered integer has no surrounding whitespace. */
  lemma StripIntToString(n: int)
    ensures Strip(IntToString(n)) == IntToString(n)
  {
    var s := IntToString(n);
    var ds := NatToString(if n < 0 then -n else n);
    var last := ds[|ds| - 1];
    assert IsDigit(last) && !IsSpace(last);
    assert s[|s| - 1] == last;
    assert IsDigit(s[0]) || s[0] == '-';
    StripNoSpace(s);
  }

  /** `int(str(n)) == n`: the decimal rendering of an integer parses back. */
  lemma IntToStringParses(n: int)
    ensures ParseInt(IntToString(n)) == Some(n)
  {
    StripIntToString(n);
    if n < 0 {
      NatToStringValue(-n);
      ParseNegative(NatToString(-n), n);
    } else {
      NatToStringValue(n);
      ParseNonNegative(NatToString(n), n);
    }
  }

  lemma ParseNegative(ds: string, k: int)
    requires |ds| > 0 && AllDigits(ds) && DigitsValue(ds) == -k
    ensures ParseSigned("-" + ds) == Some(k)
  {
    ParseNegatedDigits(ds);
  }

  lemma ParseNonNegative(ds: string, k: int)
    requires |ds| > 0 && AllDigits(ds) && DigitsValue(ds) == k
    ensures ParseSigned(ds) == Some(k)
  {
    ParseDigits(ds);
  }

  /** The rendering of an integer never contains a character that is neither a
      digit nor a leading minus sign. */
  lemma IntToStringChars(n: int, c: char)
    requires c in IntToString(n)
    ensures IsDigit(c) || c == '-'
  {
  }

  /** `a <= b` on strings: lexicographic order of the code points. */
  predicate StrLe(a: string, b: string) {
    if a == [] then true
    else if b == [] then false
    else if a[0] != b[0] then a[0] < b[0]
    else StrLe(a[1..], b[1..])
  }

  /** Any two strings compare. */
  lemma {:induction false} StrLeTotal(a: string, b: string)
    ensures StrLe(a, b) || StrLe(b, a)
  {
    if a != [] && b != [] && a[0] == b[0] {
      StrLeTotal(a[1..], b[1..]);
    }
  }

  lemma {:induction false} StrLeTransitive(a: string, b: string, c: string)
    requires StrLe(a, b) && StrLe(b, c)
    ensures StrLe(a, c)
  {
    if a != [] && b != [] && c != [] && a[0] == b[0] && b[0] == c[0] {
      StrLeTransitive(a[1..], b[1..], c[1..]);
    }
  }

  /** Only equal strings compare both ways. */
  lemma {:induction false} StrLeAntisymmetric(a: string, b: string)
    requires StrLe(a, b) && StrLe(b, a)
    ensures a == b
  {
    if a != [] && b != [] {
      StrLeAntisymmetric(a[1..], b[1..]);
      assert a == [a[0]] + a[1..] && b == [b[0]] + b[1..];
    }
  }
}

/**
 * The parts of java.lang.String and java.lang.Integer that the core relies on,
 * written as functions over `string` (a sequence of `char`).
 *
 * Case folding covers ASCII letters only; Java's compareTo works on UTF-16 code
 * units, which this model takes to be the characters themselves.
 */
module JavaText {

  import opened Wrappers

  /** String.startsWith */
  predicate StartsWith(s: string, prefix: string) {
    |prefix| <= |s| && s[..|prefix|] == prefix
  }

  /** String.endsWith */
  predicate EndsWith(s: string, suffix: string) {
    |suffix| <= |s| && s[|s| - |suffix|..] == suffix
  }

  /** A text ends with what was appended to it. */
  lemma EndsWithAppend(a: string, b: string)
    ensures EndsWith(a + b, b)
  {
    assert (a + b)[|a + b| - |b|..] == b;
  }

  /** A text starts with what it was built from. */
  lemma StartsWithAppend(a: string, b: string)
    ensures StartsWith(a + b, a)
  {
    assert (a + b)[..|a|] == a;
  }

  /** String.contains: `sub` occurs at some position of `s` */
  predicate Contains(s: string, sub: string)
    decreases |s|
  {
    StartsWith(s, sub) || (|s| > 0 && Contains(s[1..], sub))
  }

  /** Character.toLowerCase on ASCII letters; every other character is kept */
  function LowerChar(c: char): char {
    if 'A' <= c <= 'Z' then (c as int + 32) as char else c
  }

  /** String.toLowerCase */
  function ToLower(s: string): string {
    seq(|s|, i requires 0 <= i < |s| => LowerChar(s[i]))
  }

  /** Lower-casing twice is lower-casing once. */
  lemma ToLowerIdempotent(s: string)
    ensures ToLower(ToLower(s)) == ToLower(s)
  {
  }

  /** String.equalsIgnoreCase */
  predicate EqualsIgnoreCase(a: string, b: string) {
    ToLower(a) == ToLower(b)
  }

  /** `s.replace(String.valueOf(c), "")`: every occurrence of `c` removed */
  function RemoveAll(s: string, c: char): (r: string)
    ensures c !in r
    ensures |r| <= |s|
  {
    if s == [] then [] else (if s[0] == c then [] else [s[0]]) + RemoveAll(s[1..], c)
  }

  /** Removing a character that does not occur changes nothing. */
  lemma {:induction false} RemoveAllAbsent(s: string, c: char)
    requires c !in s
    ensures RemoveAll(s, c) == s
  {
    if s != [] {
      RemoveAllAbsent(s[1..], c);
    }
  }

  /** Removal keeps every other character, as many times as it occurs, and drops every `c`. */
  lemma {:induction false} RemoveAllMultiset(s: string, c: char)
    ensures multiset(RemoveAll(s, c)) == multiset(s)[c := 0]
  {
    if s != [] {
      var x, t := s[0], s[1..];
      RemoveAllMultiset(t, c);
      var head: string := if x == c then [] else [x];
      assert multiset(RemoveAll(s, c)) == multiset(head) + multiset(RemoveAll(t, c)) by {
        assert RemoveAll(s, c) == head + RemoveAll(t, c);
      }
      assert multiset(s) == multiset([x]) + multiset(t) by {
        assert s == [x] + t;
      }
      MultisetUpdateSum(multiset([x]), multiset(t), c);
      assert multiset(head) == multiset([x])[c := 0];
    }
  }

  /** Dropping every `c` from a sum drops it from each part. */
  lemma MultisetUpdateSum(a: multiset<char>, b: multiset<char>, c: char)
    ensures (a + b)[c := 0] == a[c := 0] + b[c := 0]
  {
  }

  /** Removal distributes over concatenation. */
  lemma {:induction false} RemoveAllAppend(a: string, b: string, c: char)
    ensures RemoveAll(a + b, c) == RemoveAll(a, c) + RemoveAll(b, c)
  {
    if a != [] {
      assert (a + b)[0] == a[0] && (a + b)[1..] == a[1..] + b;
      RemoveAllAppend(a[1..], b, c);
      var head: string := if a[0] == c then [] else [a[0]];
      assert RemoveAll(a + b, c) == head + (RemoveAll(a[1..], c) + RemoveAll(b, c));
      assert RemoveAll(a, c) == head + RemoveAll(a[1..], c);
    } else {
      assert a + b == b;
    }
  }

  /** String.indexOf(char): the first position of `c`, or -1 */
  function IndexOf(s: string, c: char): (r: int)
    ensures -1 <= r < |s|
    ensures r == -1 <==> c !in s
    ensures r >= 0 ==> s[r] == c && c !in s[..r]
  {
    if s == [] then -1
    else if s[0] == c then 0
    else
      var k := IndexOf(s[1..], c);
      assert s[1..][..if k < 0 then 0 else k] == s[1..if k < 0 then 1 else k + 1];
      if k == -1 then -1 else k + 1
  }

  /** String.compareTo: lexicographic, a proper prefix is smaller */
  function CompareTo(a: string, b: string): int
  {
    if a == [] || b == [] then |a| - |b|
    else if a[0] != b[0] then a[0] as int - b[0] as int
    else CompareTo(a[1..], b[1..])
  }

  predicate IsDigit(c: char) {
    '0' <= c <= '9'
  }

  predicate AllDigits(s: string) {
    forall i :: 0 <= i < |s| ==> IsDigit(s[i])
  }

  function DigitChar(d: int): (c: char)
    requires 0 <= d < 10
    ensures IsDigit(c)
  {
    ('0' as int + d) as char
  }

  function DigitValue(c: char): (d: int)
    requires IsDigit(c)
    ensures 0 <= d < 10 && DigitChar(d) == c
  {
    c as int - '0' as int
  }

  /** Integer.toString for a non-negative value: decimal digits, no leading zero */
  function NatToString(n: nat): (r: string)
    ensures |r| >= 1 && AllDigits(r)
    ensures (|r| == 1) == (n < 10)
    ensures r[0] == '0' ==> n == 0
  {
    if n < 10 then [DigitChar(n)] else NatToString(n / 10) + [DigitChar(n % 10)]
  }

  /** Integer.toString / String.valueOf(int) */
  function IntToString(n: int): string {
    if n < 0 then "-" + NatToString(-n) else NatToString(n)
  }

  /** The value of a string of decimal digits (the empty string reads as 0). */
  function DigitsValue(s: string): nat
    requires AllDigits(s)
    decreases |s|
  {
    if s == [] then 0 else 10 * DigitsValue(s[..|s| - 1]) + DigitValue(s[|s| - 1])
  }

  /** Integer.parseInt on non-negative decimal text; None where Java would throw */
  function ParseNat(s: string): (r: Option<nat>)
    ensures r.Some? <==> s != [] && AllDigits(s)
  {
    if s != [] && AllDigits(s) then Some(DigitsValue(s)) else None
  }

  /** Reading back the decimal text of a number gives the number. */
  lemma {:induction false} NatToStringRoundTrip(n: nat)
    ensures DigitsValue(NatToString(n)) == n
    ensures ParseNat(NatToString(n)) == Some(n)
  {
    if n >= 10 {
      NatToStringRoundTrip(n / 10);
      var s := NatToString(n / 10) + [DigitChar(n % 10)];
      assert s[..|s| - 1] == NatToString(n / 10);
    }
  }

  /**
   * The fields of `s` between occurrences of `sep`, empty fields included:
   * what String.split returns before it drops trailing empty strings.
   */
  function Fields(s: string, sep: char): (r: seq<string>)
    ensures |r| >= 1
    ensures forall i :: 0 <= i < |r| ==> sep !in r[i]
    decreases |s|
  {
    if s == [] then [""]
    else
      var rest := Fields(s[1..], sep);
      if s[0] == sep then [""] + rest else [[s[0]] + rest[0]] + rest[1..]
  }

  /** String.join: the inverse of Fields */
  function Join(fields: seq<string>, sep: char): string
  {
    if fields == [] then ""
    else if |fields| == 1 then fields[0]
    else fields[0] + [sep] + Join(fields[1..], sep)
  }

  /** Splitting then joining with the same separator gives the text back. */
  lemma {:induction false} JoinFields(s: string, sep: char)
    ensures Join(Fields(s, sep), sep) == s
  {
    if s != [] {
      var rest := Fields(s[1..], sep);
      JoinFields(s[1..], sep);
      if s[0] != sep && |rest| > 1 {
        assert Join(rest, sep) == rest[0] + [sep] + Join(rest[1..], sep);
      }
    }
  }

  /** A text without the separator is a single field. */
  lemma {:induction false} FieldsNoSeparator(a: string, sep: char)
    requires sep !in a
    ensures Fields(a, sep) == [a]
  {
    if a != [] {
      FieldsNoSeparator(a[1..], sep);
      assert a[0] != sep && [a[0]] + a[1..] == a;
    }
  }

  /** The first separator ends the first field. */
  lemma {:induction false} FieldsAtSeparator(a: string, b: string, sep: char)
    requires sep !in a
    ensures Fields(a + [sep] + b, sep) == [a] + Fields(b, sep)
  {
    if a != [] {
      var s := a + [sep] + b;
      assert s[0] == a[0] != sep && s[1..] == a[1..] + [sep] + b;
      FieldsAtSeparator(a[1..], b, sep);
      assert [a[0]] + a[1..] == a;
    } else {
      assert (a + [sep] + b)[1..] == b;
    }
  }

  /** A text whose fields are all empty is made of separators only, and back. */
  lemma {:induction false} FieldsAllEmpty(t: string, sep: char)
    ensures (forall i :: 0 <= i < |Fields(t, sep)| ==> Fields(t, sep)[i] == "") <==> (forall j :: 0 <= j < |t| ==> t[j] == sep)
    decreases |t|
  {
    if t != [] {
      FieldsAllEmpty(t[1..], sep);
      var rest := Fields(t[1..], sep);
      if t[0] == sep {
        assert Fields(t, sep) == [""] + rest;
        if forall j :: 0 <= j < |t[1..]| ==> t[1..][j] == sep {
          forall j | 0 <= j < |t| ensures t[j] == sep {
            if j > 0 { assert t[j] == t[1..][j - 1]; }
          }
          forall i | 0 <= i < |Fields(t, sep)| ensures Fields(t, sep)[i] == "" {
            if i > 0 { assert Fields(t, sep)[i] == rest[i - 1]; }
          }
        } else {
          var j :| 0 <= j < |t[1..]| && t[1..][j] != sep;
          assert t[j + 1] != sep;
          var k :| 0 <= k < |rest| && rest[k] != "";
          assert Fields(t, sep)[k + 1] != "";
        }
      } else {
        assert Fields(t, sep)[0] == [t[0]] + rest[0] != "";
        assert t[0] != sep;
      }
    }
  }

  /** String.split yields no strings at all exactly for a non-empty text made only of separators. */
  lemma SplitEmptyIffAllSeparators(s: string, sep: char)
    ensures |Split(s, sep)| == 0 <==> s != [] && forall j :: 0 <= j < |s| ==> s[j] == sep
  {
    if sep in s {
      FieldsAllEmpty(s, sep);
      DropTrailingEmptyNil(Fields(s, sep));
      assert s != [];
      assert |Split(s, sep)| == 0 <==> DropTrailingEmpty(Fields(s, sep)) == [];
      if forall j :: 0 <= j < |s| ==> s[j] == sep {
        assert forall i :: 0 <= i < |Fields(s, sep)| ==> Fields(s, sep)[i] == "";
      }
    } else if s != [] {
      assert s[0] in s;
    }
  }

  /** Every string is dropped exactly when all of them are empty. */
  lemma DropTrailingEmptyNil(fields: seq<string>)
    ensures DropTrailingEmpty(fields) == [] <==> forall i :: 0 <= i < |fields| ==> fields[i] == ""
  {
    var r := DropTrailingEmpty(fields);
    if r != [] {
      assert fields[|r| - 1] == r[|r| - 1] != "";
    }
  }

  /** Splitting at the first separator: the text before it, then the fields of the rest */
  lemma SplitAtSeparator(head: string, tail: string, sep: char)
    requires sep !in head
    ensures Split(head + [sep] + tail, sep) == DropTrailingEmpty([head] + Fields(tail, sep))
  {
    assert (head + [sep] + tail)[|head|] == sep;
    FieldsAtSeparator(head, tail, sep);
  }
  /** A separator at the very end adds no field. */
  lemma SplitTrailingSeparator(head: string, sep: char)
    requires sep !in head
    ensures |Split(head + [sep], sep)| <= 1
  {
    SplitAtSeparator(head, "", sep);
    assert head + [sep] + "" == head + [sep];
  }

  /** Two non-empty-tailed fields around one separator split into exactly those two. */
  lemma SplitTwoFields(head: string, tail: string, sep: char)
    requires sep !in head && sep !in tail && tail != ""
    ensures Split(head + [sep] + tail, sep) == [head, tail]
  {
    SplitAtSeparator(head, tail, sep);
    FieldsNoSeparator(tail, sep);
    assert [head] + [tail] == [head, tail];
  }


  /** The trailing empty strings that String.split drops. */
  function DropTrailingEmpty(fields: seq<string>): (r: seq<string>)
    ensures |r| <= |fields| && r == fields[..|r|]
    ensures r != [] ==> r[|r| - 1] != ""
    ensures forall i :: |r| <= i < |fields| ==> fields[i] == ""
  {
    if fields == [] then []
    else if fields[|fields| - 1] == "" then DropTrailingEmpty(fields[..|fields| - 1])
    else fields
  }

  /**
   * String.split(String.valueOf(sep)) for a separator that is not a regular
   * expression metacharacter: without a match the whole text is the only field;
   * otherwise the fields, with trailing empty ones dropped.
   */
  function Split(s: string, sep: char): (r: seq<string>)
    ensures forall i :: 0 <= i < |r| ==> sep !in r[i]
    ensures sep !in s ==> r == [s]
    ensures sep in s ==> r == DropTrailingEmpty(Fields(s, sep))
  {
    if sep !in s then [s] else DropTrailingEmpty(Fields(s, sep))
  }
}

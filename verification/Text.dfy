/** Options and the few string operations that several components share. */
module Text {

  datatype Option<+T> = None | Some(value: T)

  /** The separator appears between consecutive parts and nowhere else. */
  function Join(parts: seq<string>, separator: string): string {
    if parts == [] then ""
    else if |parts| == 1 then parts[0]
    else parts[0] + separator + Join(parts[1..], separator)
  }

  /** A string in double quotes, as the verb %q prints it when nothing needs escaping. */
  function Quoted(s: string): string {
    "\"" + s + "\""
  }

  function Decimal(n: nat): string {
    (if n < 10 then "" else Decimal(n / 10)) + [(n % 10) as char + '0']
  }

  /** The number a string of decimal digits denotes. */
  function Numeral(digits: string): int {
    if digits == "" then 0
    else 10 * Numeral(digits[..|digits| - 1]) + digits[|digits| - 1] as int - '0' as int
  }

  /** A number is printed in decimal digits without a superfluous zero in front. */
  lemma {:induction false} DecimalDenotes(n: nat)
    ensures Numeral(Decimal(n)) == n
    ensures forall k | 0 <= k < |Decimal(n)| :: '0' <= Decimal(n)[k] <= '9'
    ensures Decimal(n) != "" && (Decimal(n)[0] == '0' ==> Decimal(n) == "0")
  {
    assert Decimal(n)[..|Decimal(n)| - 1] == if n < 10 then "" else Decimal(n / 10);
    if n >= 10 {
      DecimalDenotes(n / 10);
    }
  }

  predicate IsPrefixOf(p: string, s: string) {
    |p| <= |s| && s[..|p|] == p
  }

  predicate Contains(s: string, part: string) {
    exists i :: 0 <= i <= |s| && IsPrefixOf(part, s[i..])
  }

  /** The part stands somewhere in the string. */
  ghost predicate Occurs(part: string, s: string) {
    exists before, after :: s == before + part + after
  }

  lemma ContainsOccurring(s: string, part: string)
    ensures Contains(s, part) <==> Occurs(part, s)
  {
    if Contains(s, part) {
      var i :| 0 <= i <= |s| && IsPrefixOf(part, s[i..]);
      assert s == s[..i] + part + s[i + |part|..];
    }
    if Occurs(part, s) {
      var before, after :| s == before + part + after;
      assert s[|before|..] == part + after;
      assert IsPrefixOf(part, s[|before|..]);
    }
  }

  /** Lexicographic order, the order in which ORDER BY returns strings. */
  predicate LessEq(a: string, b: string) {
    a == "" || (b != "" && (a[0] < b[0] || (a[0] == b[0] && LessEq(a[1..], b[1..]))))
  }

  /** At the first position where two strings differ the smaller character decides; if there is none,
      the shorter string comes first. */
  lemma {:induction false} LessEqIsLexicographic(a: string, b: string, n: nat)
    requires n <= |a| && n <= |b| && a[..n] == b[..n]
    ensures n == |a| ==> LessEq(a, b)
    ensures n == |b| && n < |a| ==> !LessEq(a, b)
    ensures n < |a| && n < |b| && a[n] != b[n] ==> (LessEq(a, b) <==> a[n] < b[n])
  {
    if n > 0 {
      assert a[0] == a[..n][0] == b[..n][0] == b[0];
      assert a[1..][..n - 1] == a[..n][1..] == b[..n][1..] == b[1..][..n - 1];
      LessEqIsLexicographic(a[1..], b[1..], n - 1);
    }
  }

  lemma {:induction false} LessEqTotal(a: string, b: string)
    ensures LessEq(a, b) || LessEq(b, a)
  {
    if a != "" && b != "" && a[0] == b[0] {
      LessEqTotal(a[1..], b[1..]);
    }
  }

  lemma {:induction false} LessEqAntisymmetric(a: string, b: string)
    requires LessEq(a, b) && LessEq(b, a)
    ensures a == b
  {
    if a != "" && b != "" {
      LessEqAntisymmetric(a[1..], b[1..]);
      assert a == [a[0]] + a[1..];
      assert b == [b[0]] + b[1..];
    }
  }

  lemma {:induction false} LessEqTransitive(a: string, b: string, c: string)
    requires LessEq(a, b) && LessEq(b, c)
    ensures LessEq(a, c)
  {
    if a != "" && a[0] == b[0] && b[0] == c[0] {
      LessEqTransitive(a[1..], b[1..], c[1..]);
    }
  }

  /** Joining one more part at the end puts a separator and that part behind a non-empty list. */
  lemma {:induction false} JoinAppend(parts: seq<string>, last: string, separator: string)
    ensures Join(parts + [last], separator) == if parts == [] then last else Join(parts, separator) + separator + last
  {
    if parts != [] {
      assert (parts + [last])[1..] == parts[1..] + [last];
      if |parts| > 1 {
        JoinAppend(parts[1..], last, separator);
      }
    } else {
      assert [] + [last] == [last];
    }
  }

  // ----- Splitting -----

  /** The position of the first occurrence, or the length. */
  function IndexOf<T(==)>(s: seq<T>, item: T): (i: nat)
    ensures i <= |s| && (forall k | 0 <= k < i :: s[k] != item) && (i < |s| ==> s[i] == item)
  {
    if s == [] || s[0] == item then 0
    else 1 + IndexOf(s[1..], item)
  }

  /** No part holds the separator. */
  predicate Apart(parts: seq<string>, separator: char) {
    forall i | 0 <= i < |parts| :: separator !in parts[i]
  }

  /** Splits at every occurrence of the separator. */
  function Split(s: string, separator: char): (parts: seq<string>)
    ensures parts != [] && Apart(parts, separator) && Join(parts, [separator]) == s
  {
    var i := IndexOf(s, separator);
    if i == |s| then [s]
    else
      assert s == s[..i] + [separator] + s[i + 1..];
      [s[..i]] + Split(s[i + 1..], separator)
  }

  /** Splitting what was joined gives back the parts. */
  lemma {:induction false} SplitJoined(parts: seq<string>, separator: char)
    requires parts != [] && Apart(parts, separator)
    ensures Split(Join(parts, [separator]), separator) == parts
  {
    var s, head := Join(parts, [separator]), parts[0];
    var i := IndexOf(s, separator);
    assert forall k | 0 <= k < |head| :: s[k] == head[k] && head[k] in head;
    if |parts| == 1 {
      assert i == |s|;
    } else {
      assert s[|head|] == separator;
      assert i == |head| && s[..i] == head && s[i + 1..] == Join(parts[1..], [separator]);
      SplitJoined(parts[1..], separator);
    }
  }
}

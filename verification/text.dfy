/** The string helpers the planning code leans on: `%d` formatting,
    `bytes.Split` on a one-character separator, and `path.Join` restricted to
    the clean paths the program actually builds.
 */
module Text {

  /** The decimal digit character for `d`. */
  function Digit(d: nat): (c: char)
    requires d < 10
    ensures '0' <= c <= '9'
    ensures c as int - '0' as int == d
  {
    ['0', '1', '2', '3', '4', '5', '6', '7', '8', '9'][d]
  }

  predicate IsDigits(s: string) {
    forall i :: 0 <= i < |s| ==> '0' <= s[i] <= '9'
  }

  /** The number a string of decimal digits denotes (most significant first). */
  function DigitsValue(s: string): nat
    requires IsDigits(s)
  {
    if |s| == 0 then 0
    else DigitsValue(s[..|s| - 1]) * 10 + (s[|s| - 1] as int - '0' as int)
  }

  /** Go's `fmt.Sprintf("%d", n)` for a non-negative `n`: no sign, no leading zeros. */
  function NatToString(n: nat): (r: string)
    ensures |r| >= 1
    ensures IsDigits(r)
    ensures |r| > 1 ==> r[0] != '0'
  {
    if n < 10 then [Digit(n)] else NatToString(n / 10) + [Digit(n % 10)]
  }

  /** Reading back what `NatToString` wrote gives the number, so two different
      partition numbers never print the same. */
  lemma {:induction false} NatToStringRoundTrip(n: nat)
    ensures DigitsValue(NatToString(n)) == n
  {
    if n >= 10 {
      var s := NatToString(n);
      assert s[..|s| - 1] == NatToString(n / 10);
      NatToStringRoundTrip(n / 10);
    }
  }

  /** A string of digits holds no other character. */
  lemma DigitsExclude(s: string, c: char)
    requires IsDigits(s) && !('0' <= c <= '9')
    ensures c !in s
  {
    forall i | 0 <= i < |s|
      ensures s[i] != c
    {
    }
  }

  /** Number of occurrences of `c` in `s`. */
  function Count(s: string, c: char): nat
  {
    if |s| == 0 then 0 else (if s[0] == c then 1 else 0) + Count(s[1..], c)
  }

  /** Go's `bytes.Split(s, []byte{sep})`: every occurrence of `sep` separates
      two fields, empty ones included, and the empty string is one empty field. */
  function Split(s: string, sep: char): (r: seq<string>)
    ensures |r| >= 1
    ensures forall i :: 0 <= i < |r| ==> sep !in r[i]
    decreases |s|
  {
    if |s| == 0 then [""]
    else if s[0] == sep then [""] + Split(s[1..], sep)
    else
      var rest := Split(s[1..], sep);
      [[s[0]] + rest[0]] + rest[1..]
  }

  /** The first field of a split is everything before the first separator. */
  lemma {:induction false} SplitFirstField(a: string, b: string, sep: char)
    requires sep !in a
    ensures Split(a + [sep] + b, sep)[0] == a
    decreases |a|
  {
    if |a| == 0 {
      assert a + [sep] + b == [sep] + b;
      assert ([sep] + b)[1..] == b;
    } else {
      var s := a + [sep] + b;
      assert s[0] == a[0] && s[1..] == a[1..] + [sep] + b;
      SplitFirstField(a[1..], b, sep);
      assert a == [a[0]] + a[1..];
    }
  }

  /** Go's `strings.Join(parts, string(sep))`. */
  function JoinWith(parts: seq<string>, sep: char): string
    requires |parts| >= 1
    decreases |parts|
  {
    if |parts| == 1 then parts[0] else parts[0] + [sep] + JoinWith(parts[1..], sep)
  }

  /** Splitting yields one more field than there are separators. */
  lemma {:induction false} SplitCount(s: string, sep: char)
    ensures |Split(s, sep)| == Count(s, sep) + 1
    decreases |s|
  {
    if |s| > 0 {
      SplitCount(s[1..], sep);
    }
  }

  /** Splitting loses nothing: joining the fields back gives the input. */
  lemma {:induction false} SplitJoinRoundTrip(s: string, sep: char)
    ensures JoinWith(Split(s, sep), sep) == s
    decreases |s|
  {
    if |s| > 0 {
      var rest := Split(s[1..], sep);
      SplitJoinRoundTrip(s[1..], sep);
      if s[0] == sep {
        assert Split(s, sep) == [""] + rest;
        assert ([""] + rest)[1..] == rest;
        assert s == [sep] + s[1..];
      } else {
        var r := Split(s, sep);
        assert r == [[s[0]] + rest[0]] + rest[1..];
        if |rest| == 1 {
          assert JoinWith(rest, sep) == rest[0];
        } else {
          assert r[1..] == rest[1..];
          assert JoinWith(rest, sep) == rest[0] + [sep] + JoinWith(rest[1..], sep);
        }
        assert s == [s[0]] + s[1..];
      }
    }
  }

  /** A single path element that `path.Join` leaves as it is. */
  predicate PlainName(s: string) {
    |s| > 0 && '/' !in s && s != "." && s != ".."
  }

  /** Go's `path.Join(base, rel)` for a clean `base` (empty, or without a
      trailing slash unless it is the root) and a clean relative `rel`, the
      only shapes the program joins: the result is `base` and `rel` with one
      slash between them, or `rel` itself when `base` is empty. */
  function Join(base: string, rel: string): (r: string)
    ensures |r| == |base| + |rel| + (if base == "/" || base == "" then 0 else 1)
    ensures r[|r| - |rel|..] == rel
  {
    if base == "" then rel else if base == "/" then base + rel else base + "/" + rel
  }

  /** A joined path starts with its base. */
  lemma JoinPrefix(base: string, rel: string)
    requires base != ""
    ensures |Join(base, rel)| >= |base| && Join(base, rel)[..|base|] == base
  {
    if base != "/" {
      assert Join(base, rel) == base + ("/" + rel);
    }
  }

  /** Different names under the same directory give different paths. */
  lemma JoinDistinct(base: string, a: string, b: string)
    requires a != b
    ensures Join(base, a) != Join(base, b)
  {
    var ra, rb := Join(base, a), Join(base, b);
    if |a| == |b| {
      assert ra[|ra| - |a|..] == a;
      assert rb[|rb| - |b|..] == b;
    } else {
      assert |ra| != |rb|;
    }
  }
}

/** Python string operations the request pipeline relies on: `sub in s`,
    `sep.join(parts)` and `str(n)` for a non-negative integer. */
module Strings {

  /** Python's `sub in s`: `sub` occurs in `s` as a contiguous block. */
  predicate Contains(s: string, sub: string)
    decreases |s|
  {
    (|sub| <= |s| && s[..|sub|] == sub) || (|s| > 0 && Contains(s[1..], sub))
  }

  /** `sub` starts at offset `i` of `s`. */
  predicate OccursAt(s: string, sub: string, i: int)
  {
    0 <= i <= |s| - |sub| && s[i..i + |sub|] == sub
  }

  /** `Contains` agrees with its positional meaning: some offset of `s` starts a copy of `sub`. */
  lemma {:induction false} ContainsIff(s: string, sub: string)
    ensures Contains(s, sub) <==> exists i :: OccursAt(s, sub, i)
    decreases |s|
  {
    if |sub| <= |s| && s[..|sub|] == sub {
      assert OccursAt(s, sub, 0);
    } else if |s| > 0 {
      ContainsIff(s[1..], sub);
      if Contains(s[1..], sub) {
        var j :| OccursAt(s[1..], sub, j);
        assert s[j + 1..j + 1 + |sub|] == s[1..][j..j + |sub|];
        assert OccursAt(s, sub, j + 1);
      }
      if exists i :: OccursAt(s, sub, i) {
        var i :| OccursAt(s, sub, i);
        assert i != 0;
        assert s[1..][i - 1..i - 1 + |sub|] == s[i..i + |sub|];
        assert OccursAt(s[1..], sub, i - 1);
      }
    }
  }

  /** A string that is built around `sub` contains it. */
  lemma ContainsMiddle(a: string, sub: string, b: string)
    ensures Contains(a + sub + b, sub)
  {
    var s := a + sub + b;
    assert s[|a|..|a| + |sub|] == sub;
    assert OccursAt(s, sub, |a|);
    ContainsIff(s, sub);
  }

  /** Putting text in front of a string keeps what it contains. */
  lemma ContainsAfter(a: string, b: string, sub: string)
    requires Contains(b, sub)
    ensures Contains(a + b, sub)
  {
    ContainsIff(b, sub);
    var i :| OccursAt(b, sub, i);
    var s := a + b;
    assert s[|a| + i..|a| + i + |sub|] == b[i..i + |sub|];
    assert OccursAt(s, sub, |a| + i);
    ContainsIff(s, sub);
  }

  /** Putting text after a string keeps what it contains. */
  lemma ContainsBefore(a: string, b: string, sub: string)
    requires Contains(a, sub)
    ensures Contains(a + b, sub)
  {
    ContainsIff(a, sub);
    var i :| OccursAt(a, sub, i);
    var s := a + b;
    assert s[i..i + |sub|] == a[i..i + |sub|];
    assert OccursAt(s, sub, i);
    ContainsIff(s, sub);
  }

  /** Python's `sep.join(parts)`. */
  function Join(sep: string, parts: seq<string>): string
  {
    if |parts| == 0 then ""
    else if |parts| == 1 then parts[0]
    else parts[0] + sep + Join(sep, parts[1..])
  }

  /** Where `parts[j]` starts inside `Join(sep, parts)`: the lengths of the
      parts before it, each followed by one separator. */
  function JoinOffset(sep: string, parts: seq<string>, j: nat): nat
    requires j <= |parts|
  {
    if j == 0 then 0 else |parts[0]| + |sep| + JoinOffset(sep, parts[1..], j - 1)
  }

  /** Sum of the lengths of the parts. */
  function TotalLength(parts: seq<string>): nat
  {
    if |parts| == 0 then 0 else |parts[0]| + TotalLength(parts[1..])
  }

  /** The joined string is every part plus one separator between
      neighbours, part `j` sits verbatim at `JoinOffset(sep, parts, j)`, and
      the separator itself follows it when another part comes next. */
  lemma {:induction false} JoinLayout(sep: string, parts: seq<string>, j: nat)
    requires j < |parts|
    ensures |Join(sep, parts)| == TotalLength(parts) + |sep| * (|parts| - 1)
    ensures JoinOffset(sep, parts, j) + |parts[j]| <= |Join(sep, parts)|
    ensures Join(sep, parts)[JoinOffset(sep, parts, j)..JoinOffset(sep, parts, j) + |parts[j]|] == parts[j]
    ensures j + 1 < |parts| ==>
              JoinOffset(sep, parts, j) + |parts[j]| + |sep| == JoinOffset(sep, parts, j + 1) <= |Join(sep, parts)| &&
              Join(sep, parts)[JoinOffset(sep, parts, j) + |parts[j]|..JoinOffset(sep, parts, j + 1)] == sep
  {
    JoinPart(sep, parts, j);
    if j + 1 < |parts| {
      JoinSeparator(sep, parts, j);
    }
  }

  /** Part `j` sits verbatim at `JoinOffset(sep, parts, j)`. */
  lemma {:induction false} JoinPart(sep: string, parts: seq<string>, j: nat)
    requires j < |parts|
    ensures |Join(sep, parts)| == TotalLength(parts) + |sep| * (|parts| - 1)
    ensures JoinOffset(sep, parts, j) + |parts[j]| <= |Join(sep, parts)|
    ensures Join(sep, parts)[JoinOffset(sep, parts, j)..JoinOffset(sep, parts, j) + |parts[j]|] == parts[j]
  {
    if |parts| > 1 {
      var rest := Join(sep, parts[1..]);
      JoinPart(sep, parts[1..], if j == 0 then 0 else j - 1);
      assert Join(sep, parts) == parts[0] + sep + rest;
      if j == 0 {
        assert Join(sep, parts)[..|parts[0]|] == parts[0];
      } else {
        var off := JoinOffset(sep, parts[1..], j - 1);
        assert parts[1..][j - 1] == parts[j];
        assert Join(sep, parts)[|parts[0]| + |sep| + off..|parts[0]| + |sep| + off + |parts[j]|]
            == rest[off..off + |parts[j]|];
      }
    }
  }

  /** Between part `j` and part `j + 1` of the joined string stands `sep`. */
  lemma {:induction false} JoinSeparator(sep: string, parts: seq<string>, j: nat)
    requires j + 1 < |parts|
    ensures JoinOffset(sep, parts, j) + |parts[j]| + |sep| == JoinOffset(sep, parts, j + 1) <= |Join(sep, parts)|
    ensures Join(sep, parts)[JoinOffset(sep, parts, j) + |parts[j]|..JoinOffset(sep, parts, j + 1)] == sep
  {
    var s := Join(sep, parts);
    var rest := Join(sep, parts[1..]);
    var head := |parts[0]| + |sep|;
    assert s == parts[0] + sep + rest;
    if j == 0 {
      assert s[|parts[0]|..head] == sep;
    } else {
      JoinSeparator(sep, parts[1..], j - 1);
      assert parts[1..][j - 1] == parts[j];
      var lo := JoinOffset(sep, parts[1..], j - 1) + |parts[j]|;
      var hi := JoinOffset(sep, parts[1..], j);
      assert s[head + lo..head + hi] == rest[lo..hi];
    }
  }

  /** Every part occurs in the joined string. */
  lemma JoinContainsParts(sep: string, parts: seq<string>, j: nat)
    requires j < |parts|
    ensures Contains(Join(sep, parts), parts[j])
  {
    var s := Join(sep, parts);
    var off := JoinOffset(sep, parts, j);
    JoinPart(sep, parts, j);
    assert s == s[..off] + parts[j] + s[off + |parts[j]|..];
    ContainsMiddle(s[..off], parts[j], s[off + |parts[j]|..]);
  }

  /** The character of one decimal digit. */
  function DigitChar(d: nat): (c: char)
    requires d < 10
    ensures '0' <= c <= '9' && c as int - '0' as int == d
  {
    ('0' as int + d) as char
  }

  predicate IsDigits(s: string)
  {
    forall k :: 0 <= k < |s| ==> '0' <= s[k] <= '9'
  }

  /** Python's `str(n)` for `n >= 0`: decimal digits, most significant first. */
  function NatToString(n: nat): (r: string)
    ensures |r| >= 1 && IsDigits(r)
    ensures |r| > 1 ==> r[0] != '0'
  {
    if n < 10 then [DigitChar(n)] else NatToString(n / 10) + [DigitChar(n % 10)]
  }

  /** Python's `int(s)` for a string of decimal digits. */
  function StringToNat(s: string): nat
    requires IsDigits(s)
  {
    if |s| == 0 then 0 else StringToNat(s[..|s| - 1]) * 10 + (s[|s| - 1] as int - '0' as int)
  }

  /** Reading back the decimal form of `n` gives `n`. */
  lemma {:induction false} StringToNatInverts(n: nat)
    ensures StringToNat(NatToString(n)) == n
  {
    var s := NatToString(n);
    if n >= 10 {
      assert s[..|s| - 1] == NatToString(n / 10);
      StringToNatInverts(n / 10);
    }
  }

  /** Distinct numbers have distinct decimal forms. */
  lemma NatToStringInjective(m: nat, n: nat)
    requires m != n
    ensures NatToString(m) != NatToString(n)
  {
    StringToNatInverts(m);
    StringToNatInverts(n);
  }
}

/** The string primitives of PHP and of the framework's `Str` helper that the
    modelled code relies on: `implode`, `explode` on a one-character
    delimiter, `str_replace`, `Str::startsWith`, `Str::afterLast`, `lcfirst`
    and the decimal rendering PHP applies when it turns an integer into text.
    Strings are sequences of characters; no encoding is modelled. */
module PhpStrings {

  /** `Str::startsWith($s, $prefix)` for a single needle: a plain textual prefix. */
  predicate StartsWith(s: string, prefix: string) {
    prefix <= s
  }

  /** PHP's notion of a truthy string: every string except "" and "0". */
  predicate Truthy(s: string) {
    s != "" && s != "0"
  }

  // ---------------------------------------------------------------------
  // implode / explode

  /** `implode($sep, $parts)`: the parts in order, with `sep` between neighbours. */
  function Join(sep: string, parts: seq<string>): (r: string)
    ensures |parts| > 0 ==> parts[0] <= r
    decreases |parts|
  {
    if |parts| == 0 then ""
    else if |parts| == 1 then parts[0]
    else parts[0] + sep + Join(sep, parts[1..])
  }

  lemma JoinCons(sep: string, first: string, rest: seq<string>)
    ensures |rest| == 0 ==> Join(sep, [first] + rest) == first
    ensures |rest| > 0 ==> Join(sep, [first] + rest) == first + sep + Join(sep, rest)
  {
    assert ([first] + rest)[1..] == rest;
  }

  /** `explode($sep, $s)` for a one-character delimiter: the maximal pieces of
      `s` between occurrences of `sep`. */
  function Split(s: string, sep: char): (r: seq<string>)
    ensures |r| > 0
    ensures forall i :: 0 <= i < |r| ==> sep !in r[i]
    decreases |s|
  {
    if |s| == 0 then [""]
    else
      var rest := Split(s[1..], sep);
      if s[0] == sep then [""] + rest
      else [[s[0]] + rest[0]] + rest[1..]
  }

  /** Prefixing the first part with a character prefixes the joined text with it. */
  lemma JoinConsHead(sep: string, c: char, parts: seq<string>)
    requires |parts| > 0
    ensures Join(sep, [[c] + parts[0]] + parts[1..]) == [c] + Join(sep, parts)
  {
    var first := [c] + parts[0];
    JoinCons(sep, first, parts[1..]);
    JoinCons(sep, parts[0], parts[1..]);
    assert parts == [parts[0]] + parts[1..];
    if |parts| > 1 {
      assert first + sep + Join(sep, parts[1..]) == [c] + (parts[0] + sep + Join(sep, parts[1..]));
    }
  }

  /** Joining the pieces of an explode with the delimiter gives back the text. */
  lemma {:induction false} JoinSplit(s: string, sep: char)
    ensures Join([sep], Split(s, sep)) == s
    decreases |s|
  {
    if |s| > 0 {
      var rest := Split(s[1..], sep);
      JoinSplit(s[1..], sep);
      if s[0] == sep {
        JoinCons([sep], "", rest);
      } else {
        JoinConsHead([sep], s[0], rest);
      }
      assert s == [s[0]] + s[1..];
    }
  }

  /** A text without the delimiter explodes into itself. */
  lemma {:induction false} SplitWithoutDelimiter(p: string, sep: char)
    requires sep !in p
    ensures Split(p, sep) == [p]
    decreases |p|
  {
    if |p| > 0 {
      SplitWithoutDelimiter(p[1..], sep);
      assert [p[0]] + p[1..] == p;
    }
  }

  /** A delimiter-free first piece followed by the delimiter is split off first. */
  lemma {:induction false} SplitAfterPiece(p: string, sep: char, t: string)
    requires sep !in p
    ensures Split(p + [sep] + t, sep) == [p] + Split(t, sep)
    decreases |p|
  {
    var s := p + [sep] + t;
    if |p| == 0 {
      assert s == [sep] + t;
      assert s[1..] == t;
    } else {
      assert s[0] == p[0];
      assert s[1..] == p[1..] + [sep] + t;
      SplitAfterPiece(p[1..], sep, t);
      assert [p[0]] + p[1..] == p;
    }
  }

  /** Exploding the implode of delimiter-free parts gives back the parts. */
  lemma {:induction false} SplitJoin(parts: seq<string>, sep: char)
    requires |parts| > 0
    requires forall i :: 0 <= i < |parts| ==> sep !in parts[i]
    ensures Split(Join([sep], parts), sep) == parts
    decreases |parts|
  {
    if |parts| == 1 {
      SplitWithoutDelimiter(parts[0], sep);
    } else {
      SplitJoin(parts[1..], sep);
      SplitAfterPiece(parts[0], sep, Join([sep], parts[1..]));
      assert [parts[0]] + parts[1..] == parts;
    }
  }

  // ---------------------------------------------------------------------
  // str_replace

  /** `pat` occurs in `s` starting at index `i`. */
  predicate OccursAt(s: string, pat: string, i: int) {
    0 <= i && i + |pat| <= |s| && s[i..i + |pat|] == pat
  }

  ghost predicate Contains(s: string, pat: string) {
    exists i :: OccursAt(s, pat, i)
  }

  /** `str_replace($search, $replace, $s)` for one search string: scans left
      to right and replaces every non-overlapping occurrence. An empty search
      string leaves the subject as it is. */
  function ReplaceAll(s: string, search: string, replace: string): string
    decreases |s|
  {
    if search == [] || |s| < |search| then s
    else if s[..|search|] == search then replace + ReplaceAll(s[|search|..], search, replace)
    else [s[0]] + ReplaceAll(s[1..], search, replace)
  }

  /** An occurrence in the tail of a text is an occurrence in the text. */
  lemma OccursInTail(s: string, pat: string, i: int)
    requires |s| > 0 && OccursAt(s[1..], pat, i)
    ensures OccursAt(s, pat, i + 1)
  {
    assert s[1..][i..i + |pat|] == s[i + 1..i + 1 + |pat|];
  }

  /** A subject in which the search string does not occur is returned unchanged. */
  lemma {:induction false} ReplaceAbsent(s: string, search: string, replace: string)
    requires !Contains(s, search)
    ensures ReplaceAll(s, search, replace) == s
    decreases |s|
  {
    if search != [] && |s| >= |search| {
      assert !OccursAt(s, search, 0);
      if Contains(s[1..], search) {
        var i :| OccursAt(s[1..], search, i);
        OccursInTail(s, search, i);
        assert false;
      }
      ReplaceAbsent(s[1..], search, replace);
      assert [s[0]] + s[1..] == s;
    }
  }

  /** When the first occurrence of `search` in `a + search + b` is the one
      right after `a`, that occurrence becomes `replace` and the scan resumes
      in `b`. */
  lemma {:induction false} ReplaceFirstOccurrence(a: string, search: string, b: string, replace: string)
    requires search != []
    requires !Contains(a + search[..|search| - 1], search)
    ensures ReplaceAll(a + search + b, search, replace) == a + replace + ReplaceAll(b, search, replace)
    decreases |a|
  {
    var rest := ReplaceAll(b, search, replace);
    if |a| == 0 {
      var s := a + search + b;
      assert s == search + b;
      assert s[..|search|] == search && s[|search|..] == b;
    } else {
      NoOccurrenceAfterFirst(a, search);
      ReplaceFirstOccurrence(a[1..], search, b, replace);
      ReplaceSkipsFirst(a, search, b, replace);
      HeadOntoConcat(a, replace, rest);
    }
  }

  /** Putting back the first character of `a` in front of the rest of a concatenation. */
  lemma HeadOntoConcat(a: string, x: string, y: string)
    requires |a| > 0
    ensures [a[0]] + (a[1..] + x + y) == a + x + y
  {
    assert [a[0]] + a[1..] == a;
  }

  /** One step of `ReplaceFirstOccurrence`: the scan moves past `a[0]`. */
  lemma ReplaceSkipsFirst(a: string, search: string, b: string, replace: string)
    requires search != [] && |a| > 0
    requires !Contains(a + search[..|search| - 1], search)
    ensures ReplaceAll(a + search + b, search, replace)
         == [a[0]] + ReplaceAll(a[1..] + search + b, search, replace)
  {
    var s := a + search + b;
    var t := a + search[..|search| - 1];
    assert s[..|search|] == t[0..|search|];
    assert !OccursAt(t, search, 0);
    assert s[1..] == a[1..] + search + b;
  }

  /** Dropping the first character of `a` keeps the search string out of the prefix. */
  lemma NoOccurrenceAfterFirst(a: string, search: string)
    requires search != [] && |a| > 0
    requires !Contains(a + search[..|search| - 1], search)
    ensures !Contains(a[1..] + search[..|search| - 1], search)
  {
    var t := a + search[..|search| - 1];
    var t' := a[1..] + search[..|search| - 1];
    assert t' == t[1..];
    forall i | OccursAt(t', search, i)
      ensures false
    {
      OccursInTail(t, search, i);
    }
  }

  /** When no occurrence of `search` starts within `a`, replacing in `a + x`
      leaves `a` as it is and replaces in `x` alone. */
  lemma {:induction false} ReplaceSkipsPrefix(a: string, x: string, search: string, replace: string)
    requires search != []
    requires forall i :: 0 <= i < |a| ==> !OccursAt(a + x, search, i)
    ensures ReplaceAll(a + x, search, replace) == a + ReplaceAll(x, search, replace)
    decreases |a|
  {
    var s := a + x;
    if |a| > 0 && |s| >= |search| {
      assert !OccursAt(s, search, 0);
      assert s[1..] == a[1..] + x;
      forall i | 0 <= i < |a| - 1
        ensures !OccursAt(a[1..] + x, search, i)
      {
        assert !OccursAt(s, search, i + 1);
        if i + |search| <= |s| - 1 {
          assert s[1..][i..i + |search|] == s[i + 1..i + 1 + |search|];
        }
      }
      ReplaceSkipsPrefix(a[1..], x, search, replace);
      assert [a[0]] + a[1..] == a;
    } else if |a| == 0 {
      assert s == x;
    }
  }

  // ---------------------------------------------------------------------
  // Str::afterLast

  /** `r` is what follows the last `c` of `s`, or all of `s` when `c` does not occur. */
  ghost predicate IsAfterLast(s: string, c: char, r: string) {
    && |r| <= |s|
    && r == s[|s| - |r|..]
    && c !in r
    && (|r| == |s| || s[|s| - |r| - 1] == c)
  }

  /** `Str::afterLast($s, $c)` for a one-character search string. */
  function AfterLast(s: string, c: char): (r: string)
    ensures |r| <= |s| && r == s[|s| - |r|..]
    ensures c !in r
    ensures c in s ==> |r| < |s| && s[|s| - |r| - 1] == c
    ensures c !in s ==> r == s
    decreases |s|
  {
    if |s| == 0 then []
    else if s[|s| - 1] == c then []
    else
      var init := s[..|s| - 1];
      assert s == init + [s[|s| - 1]];
      AfterLast(init, c) + [s[|s| - 1]]
  }

  /** The description `IsAfterLast` singles out exactly the result of `AfterLast`. */
  lemma AfterLastCharacterization(s: string, c: char, r: string)
    ensures IsAfterLast(s, c, r) <==> r == AfterLast(s, c)
  {
  }

  // ---------------------------------------------------------------------
  // lcfirst

  /** The ASCII lower-case counterpart of a character; other characters stay. */
  function LowerAscii(ch: char): (r: char)
    ensures !('A' <= r <= 'Z')
    ensures 'A' <= ch <= 'Z' ==> r as int == ch as int + 32
    ensures !('A' <= ch <= 'Z') ==> r == ch
  {
    if 'A' <= ch <= 'Z' then (ch as int + 32) as char else ch
  }

  /** `lcfirst($s)`: the first character in ASCII lower case, the rest unchanged. */
  function LcFirst(s: string): (r: string)
    ensures |r| == |s|
    ensures |s| > 0 ==> r[1..] == s[1..] && !('A' <= r[0] <= 'Z')
    ensures |s| > 0 && 'A' <= s[0] <= 'Z' ==> r[0] as int == s[0] as int + 32
    ensures |s| > 0 && !('A' <= s[0] <= 'Z') ==> r[0] == s[0]
  {
    if |s| == 0 then s else [LowerAscii(s[0])] + s[1..]
  }

  // ---------------------------------------------------------------------
  // Integers as text

  predicate IsDigit(ch: char) {
    '0' <= ch <= '9'
  }

  function DigitChar(d: nat): (ch: char)
    requires d < 10
    ensures IsDigit(ch)
  {
    ('0' as int + d) as char
  }

  /** The decimal rendering PHP gives a non-negative integer. */
  function NatToString(n: nat): (r: string)
    ensures |r| > 0
    ensures forall i :: 0 <= i < |r| ==> IsDigit(r[i])
    decreases n
  {
    if n < 10 then [DigitChar(n)] else NatToString(n / 10) + [DigitChar(n % 10)]
  }

  /** The number a string of decimal digits denotes. */
  function DigitsValue(s: string): nat
    requires forall i :: 0 <= i < |s| ==> IsDigit(s[i])
    decreases |s|
  {
    if |s| == 0 then 0
    else
      var last := s[|s| - 1];
      assert IsDigit(last);
      DigitsValue(s[..|s| - 1]) * 10 + (last as int - '0' as int)
  }

  /** Reading back the decimal rendering of a number gives the number. */
  lemma {:induction false} NatToStringRoundTrip(n: nat)
    ensures DigitsValue(NatToString(n)) == n
    decreases n
  {
    if n >= 10 {
      var s := NatToString(n);
      NatToStringRoundTrip(n / 10);
      assert s[..|s| - 1] == NatToString(n / 10);
    }
  }

  /** The decimal rendering PHP gives any integer, with a leading `-` when negative. */
  function IntToString(i: int): (r: string)
    ensures |r| > 0
    ensures forall k :: 0 <= k < |r| ==> IsDigit(r[k]) || (k == 0 && r[k] == '-')
  {
    if i < 0 then "-" + NatToString(-i) else NatToString(i)
  }
}

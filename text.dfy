/** The string operations the converter relies on, written out with the
    meaning Python gives them: `startswith`/`endswith`, `lower`, `in` on
    strings, `sep.join`, `split(',')`, `split()`, `strip()`, `str(int)` and
    `int(str)`.  Whitespace is the six ASCII blanks; the other characters
    Python also splits and strips on are not modelled. */
module Text {
  import opened Wrappers

  // ---------------------------------------------------------------------
  // Characters

  /** Space, tab, newline, carriage return, vertical tab and form feed: the
      blanks `str.split()` and `str.strip()` separate on, less the
      separators U+001C to U+001F and the non-ASCII blanks. */
  predicate IsSpace(c: char)
  {
    c == ' ' || c == '\t' || c == '\n' || c == '\r' || c == '\U{000B}' || c == '\U{000C}'
  }

  predicate IsDigit(c: char)
  {
    '0' <= c <= '9'
  }

  /** True when no character of `s` is whitespace. */
  predicate NoSpace(s: string)
  {
    forall i :: 0 <= i < |s| ==> !IsSpace(s[i])
  }

  predicate StartsWith(s: string, prefix: string)
  {
    |prefix| <= |s| && s[..|prefix|] == prefix
  }

  predicate EndsWith(s: string, suffix: string)
  {
    |suffix| <= |s| && s[|s| - |suffix|..] == suffix
  }

  /** `sub in s` for strings: `sub` occurs somewhere in `s`. */
  predicate IsInfix(sub: string, s: string)
    decreases |s|
  {
    StartsWith(s, sub) || (s != [] && IsInfix(sub, s[1..]))
  }

  /** A string occurs in itself preceded by anything. */
  lemma {:induction false} InfixOfSuffix(p: string, w: string)
    ensures IsInfix(w, p + w)
    decreases |p|
  {
    if p == [] {
      assert p + w == w;
      assert (p + w)[..|w|] == w;
    } else {
      assert (p + w)[1..] == p[1..] + w;
      InfixOfSuffix(p[1..], w);
    }
  }

  function LowerChar(c: char): char
  {
    if 'A' <= c <= 'Z' then (c as int - 'A' as int + 'a' as int) as char else c
  }

  /** `s.lower()` on ASCII letters. */
  function Lower(s: string): (r: string)
    ensures |r| == |s|
    ensures forall i :: 0 <= i < |s| ==> r[i] == LowerChar(s[i])
  {
    seq(|s|, i requires 0 <= i < |s| => LowerChar(s[i]))
  }

  /** Text without capital letters is its own lower case. */
  lemma LowerUnchanged(s: string)
    requires forall i :: 0 <= i < |s| ==> !('A' <= s[i] <= 'Z')
    ensures Lower(s) == s
  {
  }

  // ---------------------------------------------------------------------
  // Joining and splitting

  /** `sep.join(parts)`. */
  function Join(sep: string, parts: seq<string>): string
    decreases |parts|
  {
    if |parts| == 0 then ""
    else if |parts| == 1 then parts[0]
    else parts[0] + sep + Join(sep, parts[1..])
  }

  /** `s.split(c)` for a single separator character: always at least one
      piece, empty pieces kept. */
  function SplitOn(s: string, c: char): (r: seq<string>)
    ensures |r| >= 1
    ensures forall i :: 0 <= i < |r| ==> c !in r[i]
    decreases |s|
  {
    if s == [] then [""]
    else
      var rest := SplitOn(s[1..], c);
      if s[0] == c then [""] + rest
      else [[s[0]] + rest[0]] + rest[1..]
  }

  /** Splitting on a separator that does not occur gives the string back. */
  lemma {:induction false} SplitOnAbsent(s: string, c: char)
    requires c !in s
    ensures SplitOn(s, c) == [s]
    decreases |s|
  {
    if s != [] {
      assert c !in s[1..];
      SplitOnAbsent(s[1..], c);
      assert [s[0]] + s[1..] == s;
    }
  }

  /** Joining what `SplitOn` produced restores the string. */
  lemma {:induction false} JoinSplitOn(s: string, c: char)
    ensures Join([c], SplitOn(s, c)) == s
    decreases |s|
  {
    if s != [] {
      var rest := SplitOn(s[1..], c);
      JoinSplitOn(s[1..], c);
      if s[0] == c {
        assert SplitOn(s, c) == [""] + rest;
        assert ([""] + rest)[1..] == rest;
      } else {
        var r := [[s[0]] + rest[0]] + rest[1..];
        assert SplitOn(s, c) == r;
        if |rest| == 1 {
          assert Join([c], r) == [s[0]] + rest[0];
        } else {
          assert r[1..] == rest[1..];
          assert Join([c], rest) == rest[0] + [c] + Join([c], rest[1..]);
        }
      }
    }
  }

  /** Splitting a joined path restores its keys, provided no key contains
      the separator. */
  lemma {:induction false} SplitOnJoin(keys: seq<string>, c: char)
    requires |keys| >= 1
    requires forall i :: 0 <= i < |keys| ==> c !in keys[i]
    ensures SplitOn(Join([c], keys), c) == keys
    decreases |keys|
  {
    if |keys| == 1 {
      SplitOnAbsent(keys[0], c);
    } else {
      SplitOnJoin(keys[1..], c);
      SplitOnAppend(keys[0], Join([c], keys[1..]), c);
      assert [keys[0]] + keys[1..] == keys;
    }
  }

  /** `SplitOn(a + [c] + b)` puts `a` in front of the pieces of `b`. */
  lemma {:induction false} SplitOnAppend(a: string, b: string, c: char)
    requires c !in a
    ensures SplitOn(a + [c] + b, c) == [a] + SplitOn(b, c)
    decreases |a|
  {
    if a == [] {
      assert a + [c] + b == [c] + b;
      assert ([c] + b)[1..] == b;
    } else {
      assert (a + [c] + b)[1..] == a[1..] + [c] + b;
      assert c !in a[1..];
      SplitOnAppend(a[1..], b, c);
      assert [a[0]] + a[1..] == a;
    }
  }

  /** Leading whitespace removed. */
  function TrimLeft(s: string): (r: string)
    ensures |r| <= |s| && r == s[|s| - |r|..]
    ensures r == [] || !IsSpace(r[0])
    decreases |s|
  {
    if s != [] && IsSpace(s[0]) then TrimLeft(s[1..]) else s
  }

  /** Trailing whitespace removed. */
  function TrimRight(s: string): (r: string)
    ensures |r| <= |s| && r == s[..|r|]
    ensures r == [] || !IsSpace(r[|r| - 1])
    decreases |s|
  {
    if s != [] && IsSpace(s[|s| - 1]) then TrimRight(s[..|s| - 1]) else s
  }

  /** `s.strip()`. */
  function Strip(s: string): string
  {
    TrimLeft(TrimRight(s))
  }

  /** The length of the run of non-whitespace characters that starts `s`. */
  function WordLength(s: string): (n: nat)
    ensures n <= |s|
    ensures forall i :: 0 <= i < n ==> !IsSpace(s[i])
    ensures n < |s| ==> IsSpace(s[n])
    decreases |s|
  {
    if s == [] || IsSpace(s[0]) then 0 else 1 + WordLength(s[1..])
  }

  /** `s.split()`: the maximal runs of non-whitespace characters, in order. */
  function SplitWs(s: string): (r: seq<string>)
    ensures forall i :: 0 <= i < |r| ==> r[i] != [] && NoSpace(r[i])
    decreases |s|
  {
    var t := TrimLeft(s);
    if t == [] then []
    else
      var n := WordLength(t);
      [t[..n]] + SplitWs(t[n..])
  }

  /** A single word splits to itself. */
  lemma SplitWsWord(s: string)
    requires s != [] && NoSpace(s)
    ensures SplitWs(s) == [s]
  {
    assert TrimLeft(s) == s;
    WordLengthAll(s);
    assert s[..|s|] == s && s[|s|..] == [];
    assert SplitWs([]) == [];
  }

  lemma {:induction false} WordLengthAll(s: string)
    requires NoSpace(s)
    ensures WordLength(s) == |s|
    decreases |s|
  {
    if s != [] {
      WordLengthAll(s[1..]);
    }
  }

  /** A string whose first character is not whitespace: its first token
      starts with that character. */
  lemma SplitWsFirst(s: string)
    requires s != [] && !IsSpace(s[0])
    ensures SplitWs(s) != [] && SplitWs(s)[0][0] == s[0]
  {
    assert TrimLeft(s) == s;
  }

  /** A word followed by a whitespace character splits into that word and
      the tokens of the rest. */
  lemma SplitWsBlank(a: string, c: char, b: string)
    requires a != [] && NoSpace(a) && IsSpace(c)
    ensures SplitWs(a + [c] + b) == [a] + SplitWs(b)
  {
    var s := a + [c] + b;
    assert s[0] == a[0];
    SplitWsAtWord(s);
    WordBeforeBlank(a, c, b);
    SplitWsLeadingBlank(c, b);
  }

  /** Text that starts with a non-blank: its first token is the run of
      non-blanks at the front. */
  lemma SplitWsAtWord(s: string)
    requires s != [] && !IsSpace(s[0])
    ensures SplitWs(s) == [s[..WordLength(s)]] + SplitWs(s[WordLength(s)..])
  {
    assert TrimLeft(s) == s;
  }

  lemma WordBeforeBlank(a: string, c: char, b: string)
    requires NoSpace(a) && IsSpace(c)
    ensures WordLength(a + [c] + b) == |a|
    ensures (a + [c] + b)[..|a|] == a && (a + [c] + b)[|a|..] == [c] + b
  {
    var s := a + [c] + b;
    assert s[|a|] == c;
    assert forall i :: 0 <= i < |a| ==> s[i] == a[i];
    WordLengthStops(s, |a|);
    assert s == a + ([c] + b);
  }

  /** Leading whitespace does not change the tokens. */
  lemma SplitWsLeadingBlank(c: char, b: string)
    requires IsSpace(c)
    ensures SplitWs([c] + b) == SplitWs(b)
  {
    assert TrimLeft([c] + b) == TrimLeft(b) by { assert ([c] + b)[1..] == b; }
  }

  lemma Assoc(x: string, y: string, z: string)
    ensures x + y + z == x + (y + z)
  {
  }

  /** Two words, each followed by a space, and then more text. */
  lemma SplitWsTwoWords(a: string, b: string, v: string)
    requires a != [] && NoSpace(a) && b != [] && NoSpace(b)
    ensures SplitWs(a + " " + b + " " + v) == [a, b] + SplitWs(v)
  {
    var t := b + " " + v;
    var r := SplitWs(v);
    TwoWordsShape(a, b, v);
    SplitWsSpace(a, t);
    SplitWsSpace(b, v);
    ConsTwo(a, b, r);
  }

  lemma ConsTwo<T>(x: T, y: T, r: seq<T>)
    ensures [x] + ([y] + r) == [x, y] + r
  {
  }

  lemma TwoWordsShape(a: string, b: string, v: string)
    ensures a + " " + b + " " + v == a + " " + (b + " " + v)
  {
    Assoc(a + " ", b, " ");
    Assoc(a + " ", b + " ", v);
  }

  /** A word followed by a space splits into that word and the tokens of
      the rest. */
  lemma SplitWsSpace(a: string, b: string)
    requires a != [] && NoSpace(a)
    ensures SplitWs(a + " " + b) == [a] + SplitWs(b)
  {
    SplitWsBlank(a, ' ', b);
  }

  /** Words with no whitespace in them, none of them empty. */
  predicate AreWords(ws: seq<string>)
  {
    forall i :: 0 <= i < |ws| ==> ws[i] != [] && NoSpace(ws[i])
  }

  /** Splitting words joined by single spaces gives the words back. */
  lemma {:induction false} SplitWsJoin(ws: seq<string>)
    requires AreWords(ws)
    ensures SplitWs(Join(" ", ws)) == ws
    decreases |ws|
  {
    if |ws| == 0 {
      assert SplitWs("") == [];
    } else if |ws| == 1 {
      SplitWsWord(ws[0]);
    } else {
      assert AreWords(ws[1..]);
      SplitWsJoin(ws[1..]);
      SplitWsJoinStep(ws);
    }
  }

  lemma SplitWsJoinStep(ws: seq<string>)
    requires |ws| >= 2 && ws[0] != [] && NoSpace(ws[0])
    requires SplitWs(Join(" ", ws[1..])) == ws[1..]
    ensures SplitWs(Join(" ", ws)) == ws
  {
    JoinCons(ws);
    SplitWsSpace(ws[0], Join(" ", ws[1..]));
    assert [ws[0]] + ws[1..] == ws;
  }

  lemma JoinCons(ws: seq<string>)
    requires |ws| >= 2
    ensures Join(" ", ws) == ws[0] + " " + Join(" ", ws[1..])
  {
  }

  /** A join of at least two non-empty words starts with the first word's
      first character and contains a space. */
  lemma JoinShape(ws: seq<string>)
    requires |ws| >= 2 && ws[0] != []
    ensures Join(" ", ws)[0] == ws[0][0]
    ensures ' ' in Join(" ", ws)
  {
    var s := Join(" ", ws);
    assert s == ws[0] + " " + Join(" ", ws[1..]);
    assert s[|ws[0]|] == ' ';
  }

  lemma {:induction false} WordLengthStops(s: string, n: nat)
    requires n < |s| && IsSpace(s[n])
    requires forall i :: 0 <= i < n ==> !IsSpace(s[i])
    ensures WordLength(s) == n
    decreases n
  {
    if n > 0 {
      WordLengthStops(s[1..], n - 1);
    }
  }

  // ---------------------------------------------------------------------
  // Decimal integers

  function DigitChar(d: nat): (c: char)
    requires d < 10
    ensures IsDigit(c)
  {
    ('0' as int + d) as char
  }

  function DigitValue(c: char): nat
    requires IsDigit(c)
  {
    c as int - '0' as int
  }

  predicate AllDigits(s: string)
  {
    forall i :: 0 <= i < |s| ==> IsDigit(s[i])
  }

  /** The decimal digits of `n`, without leading zeros. */
  function NatToDigits(n: nat): (r: string)
    ensures |r| >= 1 && AllDigits(r)
    decreases n
  {
    if n < 10 then [DigitChar(n)] else NatToDigits(n / 10) + [DigitChar(n % 10)]
  }

  /** The number a string of decimal digits denotes. */
  function DigitsValue(s: string): nat
    requires AllDigits(s)
    decreases |s|
  {
    if s == [] then 0 else DigitsValue(s[..|s| - 1]) * 10 + DigitValue(s[|s| - 1])
  }

  lemma {:induction false} DigitsValueOfDigits(n: nat)
    ensures DigitsValue(NatToDigits(n)) == n
    decreases n
  {
    if n >= 10 {
      var r := NatToDigits(n);
      DigitsValueOfDigits(n / 10);
      assert r[..|r| - 1] == NatToDigits(n / 10);
    }
  }

  /** `str(n)` for an integer. */
  function FormatInt(n: int): string
  {
    if n < 0 then "-" + NatToDigits(-n) else NatToDigits(n)
  }

  /** `int(s)` on an optionally signed run of decimal digits; `None` where
      Python raises `ValueError`. */
  function ParseInt(s: string): Option<int>
  {
    if s == [] then None
    else if s[0] == '-' || s[0] == '+' then
      if |s| > 1 && AllDigits(s[1..]) then
        Some(if s[0] == '-' then -(DigitsValue(s[1..]) as int) else DigitsValue(s[1..]))
      else None
    else if AllDigits(s) then Some(DigitsValue(s))
    else None
  }

  /** `int(str(n)) == n`: formatting and parsing are inverse. */
  lemma ParseFormatInt(n: int)
    ensures ParseInt(FormatInt(n)) == Some(n)
    ensures '.' !in FormatInt(n) && FormatInt(n) != [] && NoSpace(FormatInt(n))
  {
    var d := NatToDigits(if n < 0 then -n else n);
    DigitsValueOfDigits(if n < 0 then -n else n);
    if n < 0 {
      assert FormatInt(n)[1..] == d;
    }
  }

  /** Whatever `int` accepts ends in a digit and has no letters. */
  lemma ParsedIsNumeral(s: string)
    requires ParseInt(s).Some?
    ensures IsDigit(s[|s| - 1])
    ensures forall i :: 0 <= i < |s| ==> IsDigit(s[i]) || s[i] == '-' || s[i] == '+'
  {
    if s[0] == '-' || s[0] == '+' {
      assert forall i :: 1 <= i < |s| ==> s[i] == s[1..][i - 1];
    }
  }
}

/**
  The string operations the backup log relies on, with Python's meaning:
  `str.strip()`, `str.split(sep)` and the code-point order in which Python
  compares strings (the order `list.sort` uses on the timestamp key).
 */
module Text {

  /** The characters `str.strip()` removes: Python's whitespace code points. */
  predicate IsSpace(c: char) {
    var n := c as int;
    n == 32 || 9 <= n <= 13 || 28 <= n <= 31 || n == 0x85 || n == 0xA0 || n == 0x1680
    || 0x2000 <= n <= 0x200A || n == 0x2028 || n == 0x2029 || n == 0x202F || n == 0x205F
    || n == 0x3000
  }

  predicate IsDigit(c: char) {
    '0' <= c <= '9'
  }

  predicate AllDigits(s: string) {
    forall i | 0 <= i < |s| :: IsDigit(s[i])
  }

  // ---------------------------------------------------------------------------
  // strip

  /** Drops leading whitespace; what is left is a suffix of `s`. */
  function TrimLeft(s: string): (r: string)
    ensures |r| <= |s| && r == s[|s| - |r|..]
    ensures forall i | 0 <= i < |s| - |r| :: IsSpace(s[i])
    ensures r == [] || !IsSpace(r[0])
  {
    if s != [] && IsSpace(s[0]) then TrimLeft(s[1..]) else s
  }

  /** Drops trailing whitespace; what is left is a prefix of `s`. */
  function TrimRight(s: string): (r: string)
    ensures |r| <= |s| && r == s[..|r|]
    ensures forall i | |r| <= i < |s| :: IsSpace(s[i])
    ensures r == [] || !IsSpace(r[|r| - 1])
  {
    if s != [] && IsSpace(s[|s| - 1]) then TrimRight(s[..|s| - 1]) else s
  }

  /** Python's `s.strip()`. */
  function Strip(s: string): string {
    TrimRight(TrimLeft(s))
  }

  /** Stripping leaves alone a string that neither starts nor ends with whitespace,
      and removes any whitespace tail appended to it. */
  lemma {:induction false} StripWhitespaceTail(s: string, tail: string)
    requires s != [] && !IsSpace(s[0]) && !IsSpace(s[|s| - 1])
    requires forall i | 0 <= i < |tail| :: IsSpace(tail[i])
    ensures Strip(s + tail) == s
  {
    assert TrimLeft(s + tail) == s + tail;
    TrimRightTail(s, tail);
  }

  lemma {:induction false} TrimRightTail(s: string, tail: string)
    requires s != [] && !IsSpace(s[|s| - 1])
    requires forall i | 0 <= i < |tail| :: IsSpace(tail[i])
    ensures TrimRight(s + tail) == s
    decreases |tail|
  {
    if tail == [] {
      assert s + tail == s;
    } else {
      var shorter := tail[..|tail| - 1];
      assert (s + tail)[..|s + tail| - 1] == s + shorter;
      TrimRightTail(s, shorter);
    }
  }

  // ---------------------------------------------------------------------------
  // split and join

  /** The number of occurrences of `c` in `s`. */
  function Count(s: string, c: char): nat {
    if s == [] then 0 else (if s[0] == c then 1 else 0) + Count(s[1..], c)
  }

  /** Python's `s.split(sep)` for a one-character separator: the pieces between
      separators, so one more piece than there are separators, none holding one. */
  function Split(s: string, sep: char): (parts: seq<string>)
    ensures |parts| == Count(s, sep) + 1
    ensures forall i | 0 <= i < |parts| :: sep !in parts[i]
  {
    if s == [] then [[]]
    else
      var rest := Split(s[1..], sep);
      if s[0] == sep then [[]] + rest else [[s[0]] + rest[0]] + rest[1..]
  }

  /** Python's `sep.join(parts)`. */
  function Join(parts: seq<string>, sep: char): string {
    if parts == [] then []
    else if |parts| == 1 then parts[0]
    else parts[0] + [sep] + Join(parts[1..], sep)
  }

  /** Joining the pieces of a split gives back the string. */
  lemma {:induction false} JoinSplit(s: string, sep: char)
    ensures Join(Split(s, sep), sep) == s
  {
    if s != [] {
      var rest := Split(s[1..], sep);
      JoinSplit(s[1..], sep);
      if s[0] == sep {
        assert ([[]] + rest)[1..] == rest;
      } else {
        var parts := [[s[0]] + rest[0]] + rest[1..];
        if |rest| == 1 {
          assert parts == [[s[0]] + rest[0]];
        } else {
          assert parts[1..] == rest[1..];
          assert Join(rest, sep) == rest[0] + [sep] + Join(rest[1..], sep);
        }
      }
    }
  }

  /** A prefix without the separator is glued onto the first piece of the rest. */
  lemma {:induction false} SplitPrefix(p: string, r: string, sep: char)
    requires sep !in p
    ensures Split(p + r, sep) == [p + Split(r, sep)[0]] + Split(r, sep)[1..]
  {
    if p != [] {
      assert (p + r)[0] == p[0];
      assert (p + r)[1..] == p[1..] + r;
      SplitPrefix(p[1..], r, sep);
      assert [p[0]] + (p[1..] + Split(r, sep)[0]) == p + Split(r, sep)[0];
    } else {
      var parts := Split(r, sep);
      assert p + r == r && p + parts[0] == parts[0];
      assert [parts[0]] + parts[1..] == parts;
    }
  }

  /** A separator-free prefix followed by the separator is split off as one piece. */
  lemma SplitCons(p: string, r: string, sep: char)
    requires sep !in p
    ensures Split(p + [sep] + r, sep) == [p] + Split(r, sep)
  {
    assert p + [sep] + r == p + ([sep] + r);
    SplitPrefix(p, [sep] + r, sep);
    assert ([sep] + r)[0] == sep && ([sep] + r)[1..] == r;
    assert Split([sep] + r, sep) == [[]] + Split(r, sep);
    assert p + [] == p;
  }

  /** A string without the separator splits into itself. */
  lemma SplitNone(p: string, sep: char)
    requires sep !in p
    ensures Split(p, sep) == [p]
  {
    SplitPrefix(p, [], sep);
    assert p + [] == p;
  }

  /** Splitting a join of separator-free pieces gives back the pieces. */
  lemma {:induction false} SplitJoin(parts: seq<string>, sep: char)
    requires |parts| >= 1
    requires forall i | 0 <= i < |parts| :: sep !in parts[i]
    ensures Split(Join(parts, sep), sep) == parts
  {
    if |parts| == 1 {
      SplitNone(parts[0], sep);
    } else {
      SplitJoin(parts[1..], sep);
      SplitCons(parts[0], Join(parts[1..], sep), sep);
      assert [parts[0]] + parts[1..] == parts;
    }
  }

  // ---------------------------------------------------------------------------
  // Python's string order: code point by code point, a prefix before its extensions

  predicate StrLe(a: string, b: string) {
    |a| == 0 || (|b| > 0 && (a[0] < b[0] || (a[0] == b[0] && StrLe(a[1..], b[1..]))))
  }

  lemma {:induction false} StrLeRefl(a: string)
    ensures StrLe(a, a)
  {
    if a != [] { StrLeRefl(a[1..]); }
  }

  lemma {:induction false} StrLeTotal(a: string, b: string)
    ensures StrLe(a, b) || StrLe(b, a)
  {
    if a != [] && b != [] && a[0] == b[0] { StrLeTotal(a[1..], b[1..]); }
  }

  lemma {:induction false} StrLeTrans(a: string, b: string, c: string)
    requires StrLe(a, b) && StrLe(b, c)
    ensures StrLe(a, c)
  {
    if a != [] && a[0] == b[0] && b[0] == c[0] { StrLeTrans(a[1..], b[1..], c[1..]); }
  }

  lemma {:induction false} StrLeAntisym(a: string, b: string)
    requires StrLe(a, b) && StrLe(b, a)
    ensures a == b
  {
    if a != [] {
      StrLeAntisym(a[1..], b[1..]);
      assert a == [a[0]] + a[1..] && b == [b[0]] + b[1..];
    }
  }

  /** Comparing two strings that start with pieces of one length compares the
      pieces first and the rests only when the pieces are equal. */
  lemma {:induction false} StrLeConcat(p: string, q: string, p2: string, q2: string)
    requires |p| == |p2|
    ensures StrLe(p + q, p2 + q2) == if p == p2 then StrLe(q, q2) else StrLe(p, p2)
  {
    if p == [] {
      assert p + q == q && p2 + q2 == q2;
    } else {
      assert (p + q)[0] == p[0] && (p2 + q2)[0] == p2[0];
      assert (p + q)[1..] == p[1..] + q && (p2 + q2)[1..] == p2[1..] + q2;
      StrLeConcat(p[1..], q, p2[1..], q2);
      assert p == [p[0]] + p[1..] && p2 == [p2[0]] + p2[1..];
    }
  }
}

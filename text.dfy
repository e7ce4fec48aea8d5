/**
  The few Python string built-ins the client relies on, over `string`
  (a sequence of code points): `str.isspace`, `str.strip`, `str.split` on a
  single character, `str.join`, `str.count`, and `str(int)` / `int(str)`.
 */
module Text {
  import opened Wrappers

  /** The code points Python's `str.isspace` accepts, as inclusive ranges. */
  const SpaceRanges: seq<(int, int)> :=
    [(9, 13), (28, 32), (0x85, 0x85), (0xA0, 0xA0), (0x1680, 0x1680), (0x2000, 0x200A),
     (0x2028, 0x2029), (0x202F, 0x202F), (0x205F, 0x205F), (0x3000, 0x3000)]

  /** `n` lies in one of the ranges `rs`. */
  predicate InRanges(n: int, rs: seq<(int, int)>)
  {
    rs != [] && ((rs[0].0 <= n <= rs[0].1) || InRanges(n, rs[1..]))
  }

  /** Python's `str.isspace` for one character. */
  predicate IsSpace(c: char)
  {
    InRanges(c as int, SpaceRanges)
  }

  /** A number below every range lies in none of them. */
  lemma {:induction false} BelowRanges(n: int, rs: seq<(int, int)>)
    requires forall k :: 0 <= k < |rs| ==> n < rs[k].0
    ensures !InRanges(n, rs)
    decreases |rs|
  {
    if rs != [] {
      BelowRanges(n, rs[1..]);
    }
  }

  /** Visible ASCII characters are not white space. */
  lemma VisibleNotSpace(c: char)
    requires 33 <= c as int < 127
    ensures !IsSpace(c)
  {
    var n := c as int;
    BelowRanges(n, SpaceRanges[2..]);
    assert !InRanges(n, SpaceRanges[1..][1..]) by {
      assert SpaceRanges[1..][1..] == SpaceRanges[2..];
    }
    assert !InRanges(n, SpaceRanges[1..]);
  }

  predicate AllSpace(s: string)
  {
    forall k :: 0 <= k < |s| ==> IsSpace(s[k])
  }

  /** Neither end of `s` is white space. */
  predicate IsTrimmed(s: string)
  {
    s == [] || (!IsSpace(s[0]) && !IsSpace(s[|s| - 1]))
  }

  /** `s.lstrip()`: a suffix of `s`. */
  function TrimLeft(s: string): (r: string)
    ensures |r| <= |s| && r == s[|s| - |r|..]
    decreases |s|
  {
    if s != [] && IsSpace(s[0]) then TrimLeft(s[1..]) else s
  }

  /** `lstrip` drops only white space. */
  lemma {:induction false} TrimLeftDropsSpace(s: string)
    ensures AllSpace(s[..|s| - |TrimLeft(s)|])
    decreases |s|
  {
    if s != [] && IsSpace(s[0]) {
      TrimLeftDropsSpace(s[1..]);
      assert TrimLeft(s) == TrimLeft(s[1..]);
      var n := |s| - |TrimLeft(s)|;
      var p := s[1..][..n - 1];
      assert AllSpace(p);
      forall k | 0 <= k < n ensures IsSpace(s[..n][k]) {
        if k == 0 {
          assert s[..n][k] == s[0];
        } else {
          assert s[..n][k] == p[k - 1];
        }
      }
    }
  }

  /** `lstrip` drops all the leading white space: what it keeps starts with text. */
  lemma {:induction false} TrimLeftStopsAtText(s: string)
    ensures TrimLeft(s) != [] ==> !IsSpace(TrimLeft(s)[0])
    decreases |s|
  {
    if s != [] && IsSpace(s[0]) {
      TrimLeftStopsAtText(s[1..]);
    }
  }

  /** `s.rstrip()`: a prefix of `s`. */
  function TrimRight(s: string): (r: string)
    ensures |r| <= |s| && r == s[..|r|]
    decreases |s|
  {
    if s != [] && IsSpace(s[|s| - 1]) then
      var r := TrimRight(s[..|s| - 1]);
      assert r == s[..|r|] by {
        assert s[..|s| - 1][..|r|] == s[..|r|];
      }
      r
    else s
  }

  /** `rstrip` drops only white space. */
  lemma {:induction false} TrimRightDropsSpace(s: string)
    ensures AllSpace(s[|TrimRight(s)|..])
    decreases |s|
  {
    if s != [] && IsSpace(s[|s| - 1]) {
      var r := TrimRight(s[..|s| - 1]);
      TrimRightDropsSpace(s[..|s| - 1]);
      assert s[|r|..] == s[..|s| - 1][|r|..] + [s[|s| - 1]];
    }
  }

  /** `rstrip` drops all the trailing white space: what it keeps ends with text. */
  lemma {:induction false} TrimRightStopsAtText(s: string)
    ensures TrimRight(s) != [] ==> !IsSpace(TrimRight(s)[|TrimRight(s)| - 1])
    decreases |s|
  {
    if s != [] && IsSpace(s[|s| - 1]) {
      TrimRightStopsAtText(s[..|s| - 1]);
    }
  }

  lemma AllSpaceAppend(a: string, b: string)
    requires AllSpace(a) && AllSpace(b)
    ensures AllSpace(a + b)
  {
  }

  /** `s.strip()`. */
  function Strip(s: string): (r: string)
    ensures |r| <= |s|
  {
    TrimRight(TrimLeft(s))
  }

  /** The stripped text has no white space at either end, and it is empty only for all-space text. */
  lemma StripWellFormed(s: string)
    ensures IsTrimmed(Strip(s))
    ensures Strip(s) == [] <==> AllSpace(s)
  {
    var l := TrimLeft(s);
    var r := TrimRight(l);
    var i := |s| - |l|;
    TrimLeftDropsSpace(s);
    TrimLeftStopsAtText(s);
    TrimRightDropsSpace(l);
    TrimRightStopsAtText(l);
    if r == [] {
      assert l[|r|..] == l && s == s[..i] + l;
      AllSpaceAppend(s[..i], l);
    } else {
      assert r[0] == l[0] == s[i];
    }
  }

  lemma DropKeepsOut(s: string, i: nat, c: char)
    requires i <= |s| && c !in s
    ensures c !in s[i..]
  {
    forall k | 0 <= k < |s| - i ensures s[i..][k] != c {
      assert s[i..][k] == s[i + k];
    }
  }

  lemma TakeKeepsOut(s: string, j: nat, c: char)
    requires j <= |s| && c !in s
    ensures c !in s[..j]
  {
    forall k | 0 <= k < j ensures s[..j][k] != c {
      assert s[..j][k] == s[k];
    }
  }

  /** Stripping adds no character: a character absent from `s` is absent from its stripped form. */
  lemma StripAddsNothing(s: string, c: char)
    requires c !in s
    ensures c !in Strip(s)
  {
    var l := TrimLeft(s);
    DropKeepsOut(s, |s| - |l|, c);
    TakeKeepsOut(l, |TrimRight(l)|, c);
  }

  lemma {:induction false} TrimLeftPadded(p: string, t: string)
    requires AllSpace(p) && (t == [] || !IsSpace(t[0]))
    ensures TrimLeft(p + t) == t
    decreases |p|
  {
    if p != [] {
      var s := p + t;
      assert s[0] == p[0] && IsSpace(s[0]);
      assert s[1..] == p[1..] + t;
      assert AllSpace(p[1..]) by {
        forall k | 0 <= k < |p[1..]| ensures IsSpace(p[1..][k]) {
          assert p[1..][k] == p[k + 1];
        }
      }
      TrimLeftPadded(p[1..], t);
    } else {
      assert p + t == t;
    }
  }

  lemma {:induction false} TrimRightPadded(t: string, q: string)
    requires AllSpace(q) && (t == [] || !IsSpace(t[|t| - 1]))
    ensures TrimRight(t + q) == t
    decreases |q|
  {
    if q != [] {
      assert (t + q)[..|t + q| - 1] == t + q[..|q| - 1];
      TrimRightPadded(t, q[..|q| - 1]);
    } else {
      assert t + q == t;
    }
  }

  /** Stripping gives back exactly the trimmed text between any white-space padding. */
  lemma StripPadded(p: string, t: string, q: string)
    requires AllSpace(p) && AllSpace(q) && IsTrimmed(t) && t != []
    ensures Strip(p + t + q) == t
  {
    assert p + t + q == p + (t + q);
    TrimLeftPadded(p, t + q);
    TrimRightPadded(t, q);
  }

  /** Stripping twice is stripping once. */
  lemma StripIdempotent(s: string)
    ensures Strip(Strip(s)) == Strip(s)
  {
    var t := Strip(s);
    StripWellFormed(s);
    if t == [] {
      StripWellFormed(t);
    } else {
      StripTrimmed(t);
    }
  }

  /** `s.count(c)` for a single character. */
  function Count(s: string, c: char): (n: nat)
    ensures n <= |s|
  {
    if s == [] then 0 else (if s[0] == c then 1 else 0) + Count(s[1..], c)
  }

  /** No occurrence is counted exactly when the character does not occur. */
  lemma {:induction false} CountZero(s: string, c: char)
    ensures Count(s, c) == 0 <==> c !in s
    decreases |s|
  {
    if s != [] {
      CountZero(s[1..], c);
      assert s == [s[0]] + s[1..];
    }
  }

  lemma {:induction false} CountAppend(a: string, b: string, c: char)
    ensures Count(a + b, c) == Count(a, c) + Count(b, c)
  {
    if a != [] {
      assert (a + b)[1..] == a[1..] + b;
      CountAppend(a[1..], b, c);
    } else {
      assert a + b == b;
    }
  }

  /** `s.split(sep)` for a one-character separator: every piece between separators, empty ones included. */
  function Split(s: string, sep: char): (parts: seq<string>)
    ensures |parts| == Count(s, sep) + 1
    ensures forall k :: 0 <= k < |parts| ==> sep !in parts[k]
    decreases |s|
  {
    if s == [] then [[]]
    else
      var rest := Split(s[1..], sep);
      if s[0] == sep then [[]] + rest
      else [[s[0]] + rest[0]] + rest[1..]
  }

  /** `sep.join(parts)`: a separator goes only between parts, so a single part is joined as itself. */
  function Join(parts: seq<string>, sep: string): (j: string)
    ensures parts == [] ==> j == []
    ensures |parts| == 1 ==> j == parts[0]
  {
    if parts == [] then []
    else if |parts| == 1 then parts[0]
    else parts[0] + sep + Join(parts[1..], sep)
  }

  lemma JoinConsHead(c: char, parts: seq<string>, sep: string)
    requires parts != []
    ensures Join([[c] + parts[0]] + parts[1..], sep) == [c] + Join(parts, sep)
  {
    var ps := [[c] + parts[0]] + parts[1..];
    assert ps[1..] == parts[1..];
  }

  /** Joining the pieces of a split with the separator restores the text. */
  lemma {:induction false} JoinSplit(s: string, sep: char)
    ensures Join(Split(s, sep), [sep]) == s
    decreases |s|
  {
    if s != [] {
      var rest := Split(s[1..], sep);
      JoinSplit(s[1..], sep);
      if s[0] == sep {
        var ps := [[]] + rest;
        assert ps[1..] == rest;
        assert Join(ps, [sep]) == [] + [sep] + Join(rest, [sep]);
        assert s == [sep] + s[1..];
      } else {
        JoinConsHead(s[0], rest, [sep]);
        assert s == [s[0]] + s[1..];
      }
    }
  }

  /** A piece free of the separator splits into itself. */
  lemma {:induction false} SplitNoSep(p: string, sep: char)
    requires sep !in p
    ensures Split(p, sep) == [p]
    decreases |p|
  {
    if p != [] {
      SplitNoSep(p[1..], sep);
      assert [p[0]] + p[1..] == p;
    }
  }

  /** Splitting `p + [sep] + t` yields `p` first and then the pieces of `t`. */
  lemma {:induction false} SplitAtFirst(p: string, t: string, sep: char)
    requires sep !in p
    ensures Split(p + [sep] + t, sep) == [p] + Split(t, sep)
    decreases |p|
  {
    var s := p + [sep] + t;
    if p == [] {
      assert s[1..] == t;
    } else {
      assert s[1..] == p[1..] + [sep] + t;
      SplitAtFirst(p[1..], t, sep);
      assert [p[0]] + p[1..] == p;
    }
  }

  /** Splitting a join of separator-free pieces gives the pieces back. */
  lemma {:induction false} SplitJoin(parts: seq<string>, sep: char)
    requires parts != []
    requires forall k :: 0 <= k < |parts| ==> sep !in parts[k]
    ensures Split(Join(parts, [sep]), sep) == parts
    decreases |parts|
  {
    if |parts| == 1 {
      SplitNoSep(parts[0], sep);
    } else {
      SplitJoin(parts[1..], sep);
      SplitAtFirst(parts[0], Join(parts[1..], [sep]), sep);
      assert [parts[0]] + parts[1..] == parts;
    }
  }

  /** `[p.strip() for p in parts]`. */
  function StripEach(parts: seq<string>): (r: seq<string>)
    ensures |r| == |parts| && forall k :: 0 <= k < |parts| ==> r[k] == Strip(parts[k])
  {
    seq(|parts|, k requires 0 <= k < |parts| => Strip(parts[k]))
  }

  /** Every name preceded by one blank. */
  function Indented(names: seq<string>): (r: seq<string>)
    ensures |r| == |names| && forall k :: 0 <= k < |names| ==> r[k] == " " + names[k]
  {
    seq(|names|, k requires 0 <= k < |names| => " " + names[k])
  }

  /** A `", "` list is a `","` list whose pieces after the first start with a blank. */
  lemma {:induction false} JoinIndented(names: seq<string>)
    requires names != []
    ensures Join(Indented(names), ",") == " " + Join(names, ", ")
    decreases |names|
  {
    if |names| > 1 {
      JoinIndented(names[1..]);
      assert Indented(names)[1..] == Indented(names[1..]);
    }
  }

  /** The `", "` list of `names` is the `","` list of the first name and the indented others. */
  lemma {:induction false} CommaSpaceList(names: seq<string>)
    requires names != []
    ensures Join(names, ", ") == Join([names[0]] + Indented(names[1..]), ",")
  {
    var pieces := [names[0]] + Indented(names[1..]);
    assert pieces[1..] == Indented(names[1..]);
    if |names| > 1 {
      JoinIndented(names[1..]);
    }
  }

  /** A trimmed name strips to itself. */
  lemma StripTrimmed(name: string)
    requires name != [] && IsTrimmed(name)
    ensures Strip(name) == name
  {
    assert [] + name + [] == name;
    StripPadded([], name, []);
  }

  /** A trimmed name after one blank strips to the name. */
  lemma StripIndented(name: string)
    requires name != [] && IsTrimmed(name)
    ensures Strip(" " + name) == name
  {
    assert AllSpace(" ") by {
      assert IsSpace(' ');
    }
    assert " " + name + [] == " " + name;
    StripPadded(" ", name, []);
  }

  /** Splitting a `", "` list of comma-free names at the commas gives the names, all but the first indented. */
  lemma {:induction false} SplitCommaSpace(names: seq<string>)
    requires names != []
    requires forall k :: 0 <= k < |names| ==> ',' !in names[k]
    ensures Split(Join(names, ", "), ',') == [names[0]] + Indented(names[1..])
  {
    var pieces := [names[0]] + Indented(names[1..]);
    CommaSpaceList(names);
    forall k | 0 <= k < |pieces| ensures ',' !in pieces[k] {
      if k > 0 {
        assert pieces[k] == [' '] + names[k];
        assert ',' !in [' '];
      }
    }
    SplitJoin(pieces, ',');
  }

  /** Each name is non-empty and has no white space at either end. */
  predicate TrimmedNames(names: seq<string>)
  {
    forall k :: 0 <= k < |names| ==> names[k] != [] && IsTrimmed(names[k])
  }

  lemma StripCommaPiece(names: seq<string>, k: nat)
    requires k < |names| && TrimmedNames(names)
    ensures Strip(([names[0]] + Indented(names[1..]))[k]) == names[k]
  {
    var pieces := [names[0]] + Indented(names[1..]);
    var name := names[k];
    assert name != [] && IsTrimmed(name);
    if k == 0 {
      assert pieces[k] == name;
      StripTrimmed(name);
    } else {
      assert pieces[k] == " " + name;
      StripIndented(name);
    }
  }

  /** Stripping the first name and the indented others gives the names back. */
  lemma {:induction false} StripCommaPieces(names: seq<string>)
    requires names != [] && TrimmedNames(names)
    ensures StripEach([names[0]] + Indented(names[1..])) == names
  {
    var pieces := [names[0]] + Indented(names[1..]);
    assert |pieces| == |names|;
    forall k | 0 <= k < |names| ensures Strip(pieces[k]) == names[k] {
      StripCommaPiece(names, k);
    }
    var r := StripEach(pieces);
    assert forall k :: 0 <= k < |names| ==> r[k] == names[k];
  }

  /**
    `", ".join(names).split(',')`, each piece stripped, gives the names back
    when every name is non-empty, trimmed and free of commas.
   */
  lemma {:induction false} SplitCommaList(names: seq<string>)
    requires names != [] && TrimmedNames(names)
    requires forall k :: 0 <= k < |names| ==> ',' !in names[k]
    ensures StripEach(Split(Join(names, ", "), ',')) == names
  {
    SplitCommaSpace(names);
    StripCommaPieces(names);
  }

  /**
    A `", "` list written between `head` and a closing character `c`: the
    text after `head`, cut at the first `c`, split at the commas and stripped,
    gives the names back.
   */
  lemma ListBeforeClose(head: string, names: seq<string>, c: char, tail: string)
    requires names != [] && TrimmedNames(names) && c != ',' && c != ' '
    requires forall k :: 0 <= k < |names| ==> ',' !in names[k] && c !in names[k]
    ensures var q := head + Join(names, ", ") + [c] + tail;
      && |head| <= |q| && q[..|head|] == head
      && StripEach(Split(Split(q[|head|..], c)[0], ',')) == names
  {
    var list := Join(names, ", ");
    var rest := list + [c] + tail;
    assert head + list + [c] + tail == head + rest;
    HeadThenRest(head, rest);
    JoinFree(names, ", ", c);
    SplitAtFirst(list, tail, c);
    assert Split(rest, c)[0] == list;
    SplitCommaList(names);
  }

  /** The three parts of a concatenation are recovered by slicing at the outer parts' lengths. */
  lemma Middle(head: string, middle: string, tail: string)
    ensures var q := head + middle + tail;
      && |head| + |tail| <= |q| && q[..|head|] == head && q[|q| - |tail|..] == tail
      && q[|head|..|q| - |tail|] == middle
  {
    var q := head + middle + tail;
    assert |q| - |tail| == |head| + |middle|;
    assert q[..|head|] == head;
    assert q[|head| + |middle|..] == tail;
    assert q[|head|..|head| + |middle|] == middle;
  }

  /** The two halves of a concatenation are recovered by slicing at the first one's length. */
  lemma HeadThenRest(head: string, rest: string)
    ensures (head + rest)[..|head|] == head && (head + rest)[|head|..] == rest
  {
  }

  /**
    A `", "` list written between `head` and `tail`: the text between them,
    split at the commas and stripped, gives the names back.
   */
  lemma ListBetween(head: string, names: seq<string>, tail: string)
    requires names != [] && TrimmedNames(names)
    requires forall k :: 0 <= k < |names| ==> ',' !in names[k]
    ensures var q := head + Join(names, ", ") + tail;
      && |head| + |tail| <= |q| && q[..|head|] == head && q[|q| - |tail|..] == tail
      && StripEach(Split(q[|head|..|q| - |tail|], ',')) == names
  {
    var list := Join(names, ", ");
    Middle(head, list, tail);
    SplitCommaList(names);
  }

  /** A character in neither the pieces nor the separator is not in their join. */
  lemma {:induction false} JoinFree(parts: seq<string>, sep: string, c: char)
    requires c !in sep && forall k :: 0 <= k < |parts| ==> c !in parts[k]
    ensures c !in Join(parts, sep)
    decreases |parts|
  {
    if |parts| > 1 {
      JoinFree(parts[1..], sep, c);
    }
  }

  /** `s.split(' ')[0]`: the text before the first blank (all of it when there is none). */
  function FirstWord(s: string): (w: string)
    ensures ' ' !in w
    ensures w <= s
  {
    JoinSplit(s, ' ');
    var parts := Split(s, ' ');
    assert s == parts[0] + (if |parts| == 1 then [] else [' '] + Join(parts[1..], [' ']));
    parts[0]
  }

  lemma FirstWordOf(w: string, rest: string)
    requires ' ' !in w
    ensures FirstWord(w + [' '] + rest) == w
  {
    SplitAtFirst(w, rest, ' ');
  }

  predicate IsDigit(c: char)
  {
    '0' <= c <= '9'
  }

  predicate AllDigits(s: string)
  {
    forall k :: 0 <= k < |s| ==> IsDigit(s[k])
  }

  function DigitChar(d: nat): (c: char)
    requires d < 10
    ensures IsDigit(c) && (c as int) - ('0' as int) == d
  {
    (('0' as int) + d) as char
  }

  /** `str(n)` for a natural number: decimal digits, no leading zeros. */
  function NatToString(n: nat): (s: string)
    ensures s != [] && AllDigits(s)
    decreases n
  {
    if n < 10 then [DigitChar(n)] else NatToString(n / 10) + [DigitChar(n % 10)]
  }

  /** `str(i)`: a minus sign before the digits of a negative number. */
  function IntToString(i: int): (s: string)
    ensures ' ' !in s && s != []
  {
    if i < 0 then "-" + NatToString(-i) else NatToString(i)
  }

  /** The value of a string of decimal digits. */
  function DigitsValue(s: string): nat
    requires AllDigits(s)
  {
    if s == [] then 0 else DigitsValue(s[..|s| - 1]) * 10 + ((s[|s| - 1] as int) - ('0' as int))
  }

  /** `int(s)` on an optional minus sign and decimal digits; anything else is a ValueError (None). */
  function ParseInt(s: string): (r: Option<int>)
    ensures s == [] ==> r.None?
    ensures r.Some? ==> forall k :: 0 < k < |s| ==> IsDigit(s[k])
    ensures r.Some? && s[0] != '-' ==> AllDigits(s) && r.value >= 0
    ensures r.Some? && r.value < 0 ==> s[0] == '-'
  {
    if |s| > 1 && s[0] == '-' && AllDigits(s[1..]) then Some(0 - DigitsValue(s[1..]) as int)
    else if |s| > 0 && AllDigits(s) then Some(DigitsValue(s))
    else None
  }

  lemma {:induction false} NatToStringValue(n: nat)
    ensures DigitsValue(NatToString(n)) == n
    decreases n
  {
    if n >= 10 {
      NatToStringValue(n / 10);
      var s := NatToString(n);
      assert s[..|s| - 1] == NatToString(n / 10);
    }
  }

  /** `int(str(i)) == i` for every integer. */
  lemma IntRoundTrip(i: int)
    ensures ParseInt(IntToString(i)) == Some(i)
  {
    var s := IntToString(i);
    if i < 0 {
      assert s[1..] == NatToString(-i);
      NatToStringValue(-i);
    } else {
      NatToStringValue(i);
      assert s[0] != '-';
    }
  }
}

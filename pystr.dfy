/** The Python `str` operations the modelled code uses, with their exact
    semantics: slicing off a suffix (`s[:-n]`), character-set stripping
    (`s.strip(chars)`), splitting on a separator (`s.split(sep)`) and the
    decimal rendering of an integer inside an f-string (`str(k)`). */
module PyStr {
  import opened PyList

  /** `s[:-n]` for `n > 0`: everything but the last `n` characters, and the
      empty string when `s` is shorter than `n` (Python clamps the slice). */
  function DropLast(s: string, n: nat): (r: string)
    requires n > 0
    ensures |r| == if |s| >= n then |s| - n else 0
    ensures r <= s
  {
    if |s| >= n then s[..|s| - n] else ""
  }

  /** Dropping as many characters as were appended gives back the original. */
  lemma {:induction false} DropLastAppended(t: string, u: string)
    requires |u| > 0
    ensures DropLast(t + u, |u|) == t
  {
    assert (t + u)[..|t|] == t;
  }

  // ---------------------------------------------------------------------
  // str.lstrip / str.rstrip / str.strip with a character-set argument

  /** `s.lstrip(chars)`: drops leading characters that occur in `chars`. */
  function LStrip(s: string, chars: string): (r: string)
    ensures |r| <= |s| && r == s[|s| - |r|..]
    ensures forall k :: 0 <= k < |s| - |r| ==> s[k] in chars
    ensures r == [] || r[0] !in chars
  {
    if s != [] && s[0] in chars then LStrip(s[1..], chars) else s
  }

  /** `s.rstrip(chars)`: drops trailing characters that occur in `chars`. */
  function RStrip(s: string, chars: string): (r: string)
    ensures |r| <= |s| && r == s[..|r|]
    ensures forall k :: |r| <= k < |s| ==> s[k] in chars
    ensures r == [] || r[|r| - 1] !in chars
  {
    if s != [] && s[|s| - 1] in chars then RStrip(s[..|s| - 1], chars) else s
  }

  /** `s.strip(chars)`: removes every leading and every trailing character
      that is a member of the SET `chars` -- not the suffix `chars`. */
  function Strip(s: string, chars: string): (r: string)
    ensures |r| <= |s|
    ensures r == [] || (r[0] !in chars && r[|r| - 1] !in chars)
  {
    RStrip(LStrip(s, chars), chars)
  }

  /** `s[i..j]` is what stripping `chars` from `s` leaves: everything before
      `i` and from `j` on is in `chars`, and the window neither starts nor
      ends with a member of `chars`. */
  ghost predicate IsStripWindow(s: string, chars: string, i: int, j: int)
  {
    && 0 <= i <= j <= |s|
    && (forall k :: 0 <= k < i ==> s[k] in chars)
    && (forall k :: j <= k < |s| ==> s[k] in chars)
    && (i < j ==> s[i] !in chars && s[j - 1] !in chars)
  }

  /** Strip returns such a window ... */
  lemma {:induction false} StripIsWindow(s: string, chars: string) returns (i: nat, j: nat)
    ensures IsStripWindow(s, chars, i, j) && Strip(s, chars) == s[i..j]
  {
    var l := LStrip(s, chars);
    i, j := TrimmedWindow(s, chars, l, RStrip(l, chars));
  }

  /** A suffix `l` of `s` that starts outside `chars` after a prefix inside
      it, cut to a prefix `r` that ends outside `chars` before a tail inside
      it, is a strip window of `s`. */
  lemma {:induction false} TrimmedWindow(s: string, chars: string, l: string, r: string) returns (i: nat, j: nat)
    requires |l| <= |s| && l == s[|s| - |l|..]
    requires forall k :: 0 <= k < |s| - |l| ==> s[k] in chars
    requires l == [] || l[0] !in chars
    requires |r| <= |l| && r == l[..|r|]
    requires forall k :: |r| <= k < |l| ==> l[k] in chars
    requires r == [] || r[|r| - 1] !in chars
    ensures IsStripWindow(s, chars, i, j) && r == s[i..j]
  {
    i := |s| - |l|;
    j := i + |r|;
    assert r == s[i..j] by {
      assert r == s[i..][..|r|];
    }
    assert forall k :: j <= k < |s| ==> s[k] in chars by {
      forall k | j <= k < |s| ensures s[k] in chars {
        assert s[k] == l[k - i];
      }
    }
    assert i < j ==> s[i] !in chars && s[j - 1] !in chars by {
      if i < j {
        assert s[i] == l[0] == r[0];
      }
    }
  }

  /** ... and the window is unique, so this characterises `str.strip`. */
  lemma {:induction false} StripUnique(s: string, chars: string, i: int, j: int)
    requires IsStripWindow(s, chars, i, j)
    ensures Strip(s, chars) == s[i..j]
  {
    var i', j' := StripIsWindow(s, chars);
    if i < j || i' < j' {
      assert i == i' && j == j';
    }
  }

  /** Stripping only removes characters: nothing absent from `s` is in the result. */
  lemma {:induction false} StripAddsNothing(s: string, chars: string, c: char)
    requires c !in s
    ensures c !in Strip(s, chars)
  {
    var i, j := StripIsWindow(s, chars);
  }

  // ---------------------------------------------------------------------
  // str.split with a one-character separator, and its inverse str.join

  /** `s.split(sep)`: the pieces of `s` between separators; always at least
      one piece (`"".split("/") == [""]`). */
  function Split(s: string, sep: char): (r: seq<string>)
    ensures |r| >= 1
    ensures forall i :: 0 <= i < |r| ==> sep !in r[i]
    decreases |s|
  {
    if s == [] then [[]]
    else
      var rest := Split(s[1..], sep);
      if s[0] == sep then [[]] + rest else [[s[0]] + rest[0]] + rest[1..]
  }

  /** `s.split(sep)` has one more piece than `s` has separators. */
  lemma {:induction false} SplitCount(s: string, sep: char)
    ensures |Split(s, sep)| == Count(s, sep) + 1
    decreases |s|
  {
    if s != [] {
      SplitCount(s[1..], sep);
      assert s == [s[0]] + s[1..];
      assert multiset(s) == multiset{s[0]} + multiset(s[1..]);
    }
  }

  /** `sep.join(parts)`. */
  function Join(parts: seq<string>, sep: char): string
    requires |parts| >= 1
  {
    if |parts| == 1 then parts[0] else parts[0] + [sep] + Join(parts[1..], sep)
  }

  /** Joining a first piece onto at least one more. */
  lemma {:induction false} JoinCons(a: string, rest: seq<string>, sep: char)
    requires |rest| >= 1
    ensures Join([a] + rest, sep) == a + [sep] + Join(rest, sep)
  {
    assert ([a] + rest)[0] == a && ([a] + rest)[1..] == rest;
  }

  /** A character glued onto the first piece comes first in the join. */
  lemma {:induction false} JoinGlued(c: char, rest: seq<string>, sep: char)
    requires |rest| >= 1
    ensures Join([[c] + rest[0]] + rest[1..], sep) == [c] + Join(rest, sep)
  {
    if |rest| > 1 {
      JoinCons([c] + rest[0], rest[1..], sep);
      assert rest == [rest[0]] + rest[1..];
      JoinCons(rest[0], rest[1..], sep);
    } else {
      assert [[c] + rest[0]] + rest[1..] == [[c] + rest[0]];
    }
  }

  /** Joining the pieces of a split gives back the string. */
  lemma {:induction false} JoinSplit(s: string, sep: char)
    ensures Join(Split(s, sep), sep) == s
    decreases |s|
  {
    if s != [] {
      var tail := s[1..];
      var rest := Split(tail, sep);
      JoinSplit(tail, sep);
      assert s == [s[0]] + tail;
      if s[0] == sep {
        JoinCons([], rest, sep);
      } else {
        JoinGlued(s[0], rest, sep);
      }
    }
  }

  /** A leading separator splits off an empty first piece. */
  lemma {:induction false} SplitAfterSep(u: string, sep: char)
    ensures Split([sep] + u, sep) == [[]] + Split(u, sep)
  {
    assert ([sep] + u)[0] == sep && ([sep] + u)[1..] == u;
  }

  /** One more separator-free piece in front survives the round trip. */
  lemma {:induction false} SplitJoinCons(p: string, tail: seq<string>, sep: char)
    requires |tail| >= 1 && sep !in p
    requires Split(Join(tail, sep), sep) == tail
    ensures Split(Join([p] + tail, sep), sep) == [p] + tail
  {
    var u := Join(tail, sep);
    var t := [sep] + u;
    assert Join([p] + tail, sep) == p + t by {
      JoinCons(p, tail, sep);
    }
    assert Split(t, sep) == [[]] + tail by {
      SplitAfterSep(u, sep);
    }
    assert Split(p + t, sep) == [p] + tail by {
      SplitFreePrefix(p, t, sep);
      assert p + [] == p;
    }
  }

  /** Splitting a join of separator-free pieces gives back the pieces. */
  lemma {:induction false} SplitJoin(parts: seq<string>, sep: char)
    requires |parts| >= 1
    requires forall i :: 0 <= i < |parts| ==> sep !in parts[i]
    ensures Split(Join(parts, sep), sep) == parts
  {
    if |parts| == 1 {
      SplitFreePrefix(parts[0], [], sep);
      assert parts[0] + [] == parts[0];
    } else {
      var tail := parts[1..];
      assert forall i :: 0 <= i < |tail| ==> sep !in tail[i] by {
        forall i | 0 <= i < |tail| ensures sep !in tail[i] {
          assert tail[i] == parts[i + 1];
        }
      }
      SplitJoin(tail, sep);
      SplitJoinCons(parts[0], tail, sep);
      assert parts == [parts[0]] + tail;
    }
  }

  /** A separator-free prefix glues onto the first piece. */
  lemma {:induction false} SplitFreePrefix(p: string, t: string, sep: char)
    requires sep !in p
    ensures Split(p + t, sep) == [p + Split(t, sep)[0]] + Split(t, sep)[1..]
  {
    if p != [] {
      var st := Split(t, sep);
      var s := p + t;
      assert s[0] == p[0] && s[1..] == p[1..] + t;
      assert p == [p[0]] + p[1..];
      SplitFreePrefix(p[1..], t, sep);
      var rest := Split(s[1..], sep);
      assert rest == [p[1..] + st[0]] + st[1..];
      assert rest[0] == p[1..] + st[0] && rest[1..] == st[1..];
      assert Split(s, sep) == [[s[0]] + rest[0]] + rest[1..];
      assert [s[0]] + rest[0] == p + st[0] by {
        assert [p[0]] + (p[1..] + st[0]) == ([p[0]] + p[1..]) + st[0];
      }
    } else {
      assert p + t == t && p + Split(t, sep)[0] == Split(t, sep)[0];
      assert Split(t, sep) == [Split(t, sep)[0]] + Split(t, sep)[1..];
    }
  }

  // ---------------------------------------------------------------------
  // str(k) for an integer k, as an f-string renders it

  /** The character of a decimal digit. */
  function DigitChar(d: nat): char
    requires d < 10
  {
    (48 + d) as char
  }

  /** The decimal digits of `n`, most significant first, no leading zeros. */
  function NatString(n: nat): (r: string)
    ensures |r| >= 1
    ensures forall i :: 0 <= i < |r| ==> '0' <= r[i] <= '9'
    ensures r[0] == '0' ==> n == 0
  {
    if n < 10 then [DigitChar(n)] else NatString(n / 10) + [DigitChar(n % 10)]
  }

  /** `str(k)`: a minus sign for negative `k`, then the digits of `|k|`. */
  function IntString(k: int): (r: string)
    ensures |r| >= 1
    ensures r[0] == '-' <==> k < 0
    ensures forall i :: 0 <= i < |r| ==> r[i] == '-' || '0' <= r[i] <= '9'
  {
    if k < 0 then "-" + NatString(-k) else NatString(k)
  }

  /** The value of a string of decimal digits. */
  function ParseNat(s: string): int
  {
    if s == [] then 0 else ParseNat(s[..|s| - 1]) * 10 + (s[|s| - 1] as int - 48)
  }

  /** `int(s)` for what `str` produces. */
  function ParseInt(s: string): int
  {
    if |s| > 0 && s[0] == '-' then -ParseNat(s[1..]) else ParseNat(s)
  }

  lemma {:induction false} ParseNatString(n: nat)
    ensures ParseNat(NatString(n)) == n
  {
    if n >= 10 {
      ParseNatString(n / 10);
      var s := NatString(n);
      assert s[..|s| - 1] == NatString(n / 10);
    }
  }

  /** `int(str(k)) == k`. */
  lemma {:induction false} IntStringRoundTrip(k: int)
    ensures ParseInt(IntString(k)) == k
  {
    if k < 0 {
      ParseNatString(-k);
      assert ("-" + NatString(-k))[1..] == NatString(-k);
    } else {
      ParseNatString(k);
    }
  }

  /** Distinct integers render differently. */
  lemma {:induction false} IntStringInjective(k1: int, k2: int)
    requires IntString(k1) == IntString(k2)
    ensures k1 == k2
  {
    IntStringRoundTrip(k1);
    IntStringRoundTrip(k2);
  }
}

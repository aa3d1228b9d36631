/** Python `str` built-ins used by the recommender, on `seq<char>`:
    `isspace`, `lower`, `replace(' ', '')`, `in`, `strip`, `split()`,
    `split(sep)`, `sep.join` and `int()`. Only the ASCII part of Python's
    Unicode tables is modelled. */
module PyText {
  import opened Base
  import opened PyList

  /** `c.isspace()` for ASCII characters: tab, line feed, vertical tab, form
      feed, carriage return, the four separators 0x1C-0x1F and space. */
  predicate IsSpace(c: char)
  {
    var k := c as int;
    k == 32 || (9 <= k <= 13) || (28 <= k <= 31)
  }

  predicate NoSpace(s: string)
  {
    forall i :: 0 <= i < |s| ==> !IsSpace(s[i])
  }

  function LowerChar(c: char): char
  {
    if 'A' <= c <= 'Z' then (c as int + 32) as char else c
  }

  /** `s.lower()`. */
  function Lower(s: string): (r: string)
    ensures |r| == |s|
    ensures forall i :: 0 <= i < |s| ==> r[i] == LowerChar(s[i])
  {
    seq(|s|, i requires 0 <= i < |s| => LowerChar(s[i]))
  }

  /** Lower-casing is idempotent, and keeps a whitespace-free word whitespace-free. */
  lemma LowerIdempotent(s: string)
    ensures Lower(Lower(s)) == Lower(s)
    ensures NoSpace(s) ==> NoSpace(Lower(s))
  {
  }

  /** `s.replace(' ', '')`. */
  function RemoveSpaces(s: string): (r: string)
    ensures ' ' !in r
    ensures |r| <= |s|
    ensures forall c :: c in r <==> c in s && c != ' '
  {
    FilterMembers(s, c => c != ' ');
    Filter(s, c => c != ' ')
  }

  /** `s.lower().replace(' ', '')`, the normalisation applied to genre,
      company, country and keyword names. */
  function Normalize(s: string): string
  {
    RemoveSpaces(Lower(s))
  }

  /** `[x.lower().replace(" ", "") for x in xs]`. */
  function NormalizeAll(xs: seq<string>): (r: seq<string>)
    ensures |r| == |xs|
    ensures forall i :: 0 <= i < |xs| ==> r[i] == Normalize(xs[i])
  {
    seq(|xs|, i requires 0 <= i < |xs| => Normalize(xs[i]))
  }

  predicate StartsWith(s: string, p: string)
  {
    |p| <= |s| && s[..|p|] == p
  }

  /** `p in s`: `p` occurs in `s` as a contiguous substring. */
  predicate Contains(s: string, p: string)
    decreases |s|
  {
    StartsWith(s, p) || (|s| > 0 && Contains(s[1..], p))
  }

  /** `p` occurs in `s` starting at position `i`. */
  predicate OccursAt(s: string, p: string, i: int)
  {
    0 <= i && i + |p| <= |s| && s[i..i + |p|] == p
  }

  /** `Contains` agrees with the positional definition of a substring. */
  lemma {:induction false} ContainsIff(s: string, p: string)
    ensures Contains(s, p) <==> exists i :: OccursAt(s, p, i)
    decreases |s|
  {
    if StartsWith(s, p) {
      assert OccursAt(s, p, 0);
    }
    if |s| > 0 {
      ContainsIff(s[1..], p);
      if Contains(s[1..], p) {
        var i :| OccursAt(s[1..], p, i);
        assert s[i + 1..i + 1 + |p|] == s[1..][i..i + |p|];
        assert OccursAt(s, p, i + 1);
      }
      if i :| OccursAt(s, p, i) && i > 0 {
        assert s[1..][i - 1..i - 1 + |p|] == s[i..i + |p|];
        assert OccursAt(s[1..], p, i - 1);
      }
    } else {
      if i :| OccursAt(s, p, i) {
        assert i == 0 && StartsWith(s, p);
      }
    }
  }

  /** `s.lstrip()`. */
  function StripLeft(s: string): (r: string)
    ensures |r| <= |s| && r == s[|s| - |r|..]
    ensures |r| > 0 ==> !IsSpace(r[0])
    ensures forall i :: 0 <= i < |s| - |r| ==> IsSpace(s[i])
    decreases |s|
  {
    if |s| > 0 && IsSpace(s[0]) then StripLeft(s[1..]) else s
  }

  /** `s.rstrip()`. */
  function StripRight(s: string): (r: string)
    ensures |r| <= |s| && r == s[..|r|]
    ensures |r| > 0 ==> !IsSpace(r[|r| - 1])
    ensures forall i :: |r| <= i < |s| ==> IsSpace(s[i])
    decreases |s|
  {
    if |s| > 0 && IsSpace(s[|s| - 1]) then StripRight(s[..|s| - 1]) else s
  }

  /** `r` is the window `s[a..a + |r|]` and everything around it is whitespace. */
  predicate TrimWindow(s: string, r: string, a: int)
  {
    0 <= a && a + |r| <= |s| && r == s[a..a + |r|]
    && (forall i :: 0 <= i < a ==> IsSpace(s[i]))
    && (forall i :: a + |r| <= i < |s| ==> IsSpace(s[i]))
  }

  /** `s.strip()`: the window of `s` left after removing leading and
      trailing whitespace; it neither starts nor ends with whitespace. */
  function Strip(s: string): (r: string)
    ensures |r| <= |s|
  {
    StripRight(StripLeft(s))
  }

  /** What `Strip` leaves: a window of `s` framed by whitespace that
      neither starts nor ends with whitespace. */
  lemma StripSpec(s: string)
    ensures |Strip(s)| > 0 ==> !IsSpace(Strip(s)[0]) && !IsSpace(Strip(s)[|Strip(s)| - 1])
    ensures exists a :: TrimWindow(s, Strip(s), a)
  {
    WindowOf(s, StripLeft(s), StripRight(StripLeft(s)));
  }

  /** A whitespace-framed suffix `l` of `s`, cut to a whitespace-framed
      prefix `r` of `l`, is a whitespace-framed window of `s`. */
  lemma WindowOf(s: string, l: string, r: string)
    requires |l| <= |s| && l == s[|s| - |l|..]
    requires forall i :: 0 <= i < |s| - |l| ==> IsSpace(s[i])
    requires |r| <= |l| && r == l[..|r|]
    requires forall i :: |r| <= i < |l| ==> IsSpace(l[i])
    ensures TrimWindow(s, r, |s| - |l|)
  {
    var a := |s| - |l|;
    assert r == s[a..a + |r|];
    forall i | a + |r| <= i < |s|
      ensures IsSpace(s[i])
    {
      assert s[i] == l[i - a];
    }
  }

  /** A string with no whitespace at either end is its own strip. */
  lemma StripTrimmed(s: string)
    requires |s| > 0 ==> !IsSpace(s[0]) && !IsSpace(s[|s| - 1])
    ensures Strip(s) == s
  {
  }

  /** The maximal whitespace-free prefix of `s` and what follows it. */
  function TakeWord(s: string): (p: (string, string))
    ensures p.0 + p.1 == s
    ensures NoSpace(p.0)
    ensures |p.1| > 0 ==> IsSpace(p.1[0])
    ensures |s| > 0 && !IsSpace(s[0]) ==> |p.0| > 0
    decreases |s|
  {
    if |s| == 0 || IsSpace(s[0]) then ("", s)
    else
      var p := TakeWord(s[1..]);
      WordCons(s, p.0, p.1);
      ([s[0]] + p.0, p.1)
  }

  /** A word of the tail with a non-space head in front is a word of `s`. */
  lemma WordCons(s: string, w: string, rest: string)
    requires |s| > 0 && !IsSpace(s[0])
    requires w + rest == s[1..] && NoSpace(w)
    ensures [s[0]] + w + rest == s
    ensures NoSpace([s[0]] + w)
  {
    assert s == [s[0]] + s[1..];
    var v := [s[0]] + w;
    forall i | 0 <= i < |v|
      ensures !IsSpace(v[i])
    {
      if i > 0 {
        assert v[i] == w[i - 1];
      }
    }
  }

  /** `s.split()`: the maximal runs of non-whitespace characters, in order. */
  function Words(s: string): (ws: seq<string>)
    ensures forall k :: 0 <= k < |ws| ==> |ws[k]| > 0 && NoSpace(ws[k])
    decreases |s|
  {
    if |s| == 0 then []
    else if IsSpace(s[0]) then Words(s[1..])
    else
      var p := TakeWord(s);
      [p.0] + Words(p.1)
  }

  /** `sep.join(ts)`. */
  function Join(ts: seq<string>, sep: string): (r: string)
    ensures |ts| == 1 ==> r == ts[0]
  {
    if |ts| == 0 then ""
    else if |ts| == 1 then ts[0]
    else ts[0] + sep + Join(ts[1..], sep)
  }

  lemma {:induction false} TakeWordOf(t: string, rest: string)
    requires NoSpace(t)
    requires |rest| > 0 ==> IsSpace(rest[0])
    ensures TakeWord(t + rest) == (t, rest)
    decreases |t|
  {
    if |t| == 0 {
      assert t + rest == rest;
    } else {
      var s := t + rest;
      assert s[0] == t[0] && !IsSpace(t[0]);
      assert s[1..] == t[1..] + rest;
      TakeWordOf(t[1..], rest);
      assert TakeWord(s[1..]) == (t[1..], rest);
      assert [t[0]] + t[1..] == t;
    }
  }

  /** Splitting a space-joined list of non-empty, whitespace-free tokens on
      whitespace gives back exactly those tokens. */
  lemma {:induction false} WordsOfJoin(ts: seq<string>)
    requires forall k :: 0 <= k < |ts| ==> |ts[k]| > 0 && NoSpace(ts[k])
    ensures Words(Join(ts, " ")) == ts
    decreases |ts|
  {
    if |ts| == 0 {
      assert Join(ts, " ") == "";
    } else if |ts| == 1 {
      WordsCons(ts[0], "");
      assert ts[0] + "" == ts[0];
    } else {
      var t, rest := ts[0], Join(ts[1..], " ");
      JoinCons(ts, " ");
      WordsCons(t, " " + rest);
      WordsSpace(rest);
      WordsOfJoin(ts[1..]);
      ConsTail(ts);
    }
  }

  /** One unfolding of `Join` on two or more strings. */
  lemma JoinCons(ts: seq<string>, sep: string)
    requires |ts| > 1
    ensures Join(ts, sep) == ts[0] + (sep + Join(ts[1..], sep))
  {
  }

  /** A word followed by whitespace or nothing is split off first. */
  lemma WordsCons(t: string, rest: string)
    requires |t| > 0 && NoSpace(t)
    requires |rest| > 0 ==> IsSpace(rest[0])
    ensures Words(t + rest) == [t] + Words(rest)
  {
    TakeWordOf(t, rest);
  }

  /** Leading whitespace is skipped. */
  lemma WordsSpace(rest: string)
    ensures Words(" " + rest) == Words(rest)
  {
    assert (" " + rest)[1..] == rest;
  }

  /** `s.split(c)` for a one-character separator: the pieces between
      occurrences of `c`; there is always at least one piece. */
  function SplitOn(s: string, c: char): (parts: seq<string>)
    ensures |parts| >= 1
    ensures forall k :: 0 <= k < |parts| ==> c !in parts[k]
    decreases |s|
  {
    if c !in s then [s]
    else
      var i := IndexOf(s, c);
      [s[..i]] + SplitOn(s[i + 1..], c)
  }

  /** One unfolding of `SplitOn` at the first `c`. */
  lemma SplitStep(s: string, c: char)
    requires c in s
    ensures SplitOn(s, c) == [s[..IndexOf(s, c)]] + SplitOn(s[IndexOf(s, c) + 1..], c)
  {
  }

  /** Joining the pieces of `s.split(c)` with `c` rebuilds `s`. */
  lemma {:induction false} JoinSplitOn(s: string, c: char)
    ensures Join(SplitOn(s, c), [c]) == s
    decreases |s|
  {
    if c in s {
      var i := IndexOf(s, c);
      JoinSplitOn(s[i + 1..], c);
      assert SplitOn(s, c)[1..] == SplitOn(s[i + 1..], c);
      assert s == s[..i] + [c] + s[i + 1..];
    }
  }

  /** Two first occurrences of `c` in `s` are the same position. */
  lemma FirstOccurrence(s: string, c: char, i: nat, j: nat)
    requires i < |s| && s[i] == c && c !in s[..i]
    requires j < |s| && s[j] == c && c !in s[..j]
    ensures i == j
  {
  }

  /** Splitting at a first `c` that follows the `c`-free piece `p`. */
  lemma SplitAt(p: string, c: char, rest: string)
    requires c !in p
    ensures SplitOn(p + [c] + rest, c) == [p] + SplitOn(rest, c)
  {
    var s := p + [c] + rest;
    assert s[|p|] == c;
    assert s[..|p|] == p;
    FirstOccurrence(s, c, IndexOf(s, c), |p|);
    SplitStep(s, c);
    assert s[|p| + 1..] == rest;
  }

  /** Splitting a `c`-joined list of pieces free of `c` gives back the pieces. */
  lemma {:induction false} SplitOnJoin(parts: seq<string>, c: char)
    requires |parts| >= 1
    requires forall k :: 0 <= k < |parts| ==> c !in parts[k]
    ensures SplitOn(Join(parts, [c]), c) == parts
    decreases |parts|
  {
    if |parts| > 1 {
      var rest := Join(parts[1..], [c]);
      assert Join(parts, [c]) == parts[0] + [c] + rest;
      SplitAt(parts[0], c, rest);
      SplitOnJoin(parts[1..], c);
      ConsTail(parts);
    }
  }

  /** `s.split(c)[0]`: the text before the first `c`. */
  function FirstPiece(s: string, c: char): (r: string)
    ensures c !in r && r <= s
    ensures c in s ==> |r| < |s| && s[|r|] == c
    ensures c !in s ==> r == s
  {
    SplitOn(s, c)[0]
  }

  /** `s.split(c)[-1]`: the text after the last `c` (all of `s` when there
      is none). */
  function LastPiece(s: string, c: char): (r: string)
    ensures c !in r
    ensures c !in s ==> r == s
  {
    var parts := SplitOn(s, c);
    parts[|parts| - 1]
  }

  /** The last piece after a `c` that follows the `c`-free piece `p`. */
  lemma LastPieceCons(p: string, c: char, rest: string)
    requires c !in p
    ensures LastPiece(p + [c] + rest, c) == LastPiece(rest, c)
  {
    SplitAt(p, c, rest);
    LastOfCons(p, SplitOn(rest, c), SplitOn(p + [c] + rest, c));
  }

  /** The last element of a sequence with one more element in front. */
  lemma LastOfCons<T>(x: T, t: seq<T>, all: seq<T>)
    requires |t| > 0 && all == [x] + t
    ensures all[|all| - 1] == t[|t| - 1]
  {
  }

  predicate IsDigit(c: char)
  {
    '0' <= c <= '9'
  }

  predicate AllDigits(s: string)
  {
    forall i :: 0 <= i < |s| ==> IsDigit(s[i])
  }

  /** The value of a string of decimal digits. */
  function DigitsValue(s: string): nat
    requires AllDigits(s)
    decreases |s|
  {
    if |s| == 0 then 0
    else DigitsValue(s[..|s| - 1]) * 10 + (s[|s| - 1] as int - '0' as int)
  }

  /** A string that starts with a character other than whitespace, a sign or
      a digit is not an integer. */
  lemma ParseIntRejects(s: string)
    requires |s| > 0 && !IsSpace(s[0]) && !IsSpace(s[|s| - 1])
    requires s[0] != '-' && s[0] != '+' && !IsDigit(s[0])
    ensures ParseInt(s) == None
  {
    StripTrimmed(s);
  }

  /** `int(s)` for a base-10 string: surrounding whitespace, an optional sign
      and at least one digit; anything else raises (`None`). */
  function ParseInt(s: string): (r: Option<int>)
    ensures r.Some? ==> |Strip(s)| > 0
  {
    var t := Strip(s);
    if |t| > 0 && (t[0] == '-' || t[0] == '+') then
      var d := t[1..];
      if |d| > 0 && AllDigits(d) then
        var v: int := DigitsValue(d);
        Some(if t[0] == '-' then -v else v)
      else None
    else if |t| > 0 && AllDigits(t) then Some(DigitsValue(t))
    else None
  }

  function DigitChar(d: nat): char
    requires d < 10
  {
    ('0' as int + d) as char
  }

  /** `str(n)` for a natural number. */
  function ShowNat(n: nat): (s: string)
    ensures |s| > 0 && AllDigits(s)
  {
    if n < 10 then [DigitChar(n)] else ShowNat(n / 10) + [DigitChar(n % 10)]
  }

  /** `str(n)` for any integer. */
  function ShowInt(n: int): string
  {
    if n < 0 then "-" + ShowNat(-n) else ShowNat(n)
  }

  lemma {:induction false} DigitsValueShowNat(n: nat)
    ensures DigitsValue(ShowNat(n)) == n
  {
    if n >= 10 {
      var s := ShowNat(n);
      assert s[..|s| - 1] == ShowNat(n / 10);
      DigitsValueShowNat(n / 10);
    }
  }

  /** `int(str(n)) == n`: parsing inverts printing. */
  lemma ParseShowInt(n: int)
    ensures ParseInt(ShowInt(n)) == Some(n)
  {
    var s := ShowInt(n);
    if n < 0 {
      var digits := ShowNat(-n);
      assert s == "-" + digits;
      assert s[0] == '-' && s[1..] == digits;
      assert s[|s| - 1] == digits[|digits| - 1];
      StripTrimmed(s);
      DigitsValueShowNat(-n);
    } else {
      var digits := ShowNat(n);
      assert s == digits;
      StripTrimmed(s);
      DigitsValueShowNat(n);
    }
  }
}

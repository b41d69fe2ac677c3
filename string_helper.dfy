/** The string handling the layout check depends on: `StringHelper.splitAndTrim`
    over Java's `String.split` and `String.trim`, and the decimal form that
    `id + ""` gives a Java `long`. */
module StringHelper {

  /** `String.trim` removes every character up to and including U+0020. */
  predicate IsBlank(c: char) {
    c <= ' '
  }

  /** True when `s` has no blank character at either end. */
  predicate IsTrimmed(s: string) {
    s == [] || (!IsBlank(s[0]) && !IsBlank(s[|s| - 1]))
  }

  /** Number of blank characters `s` starts with. */
  function LeadingBlanks(s: string): (n: nat)
    ensures n <= |s|
    ensures forall k :: 0 <= k < n ==> IsBlank(s[k])
    ensures n < |s| ==> !IsBlank(s[n])
  {
    if s == [] || !IsBlank(s[0]) then 0
    else
      var n := 1 + LeadingBlanks(s[1..]);
      assert forall k :: 1 <= k < n ==> s[k] == s[1..][k - 1];
      n
  }

  /** Number of blank characters `s` ends with. */
  function TrailingBlanks(s: string): (n: nat)
    ensures n <= |s|
    ensures forall k :: |s| - n <= k < |s| ==> IsBlank(s[k])
    ensures n < |s| ==> !IsBlank(s[|s| - 1 - n])
  {
    if s == [] || !IsBlank(s[|s| - 1]) then 0
    else 1 + TrailingBlanks(s[..|s| - 1])
  }

  /** Java's `String.trim`: the characters between the leading and the
      trailing blanks. */
  function Trim(s: string): (t: string)
    ensures |t| <= |s|
    ensures IsTrimmed(t)
    ensures IsTrimmed(s) ==> t == s
    ensures forall c :: c in t ==> c in s
    ensures t == [] <==> forall k :: 0 <= k < |s| ==> IsBlank(s[k])
  {
    var tail := s[LeadingBlanks(s)..];
    tail[..|tail| - TrailingBlanks(tail)]
  }

  /** What `Trim` keeps is a slice of `s` with only blanks before and after
      it: exactly the leading and trailing blanks are removed. */
  lemma TrimIsSlice(s: string)
    ensures exists i, j ::
              && 0 <= i <= j <= |s| && Trim(s) == s[i..j]
              && (forall k :: 0 <= k < i ==> IsBlank(s[k]))
              && (forall k :: j <= k < |s| ==> IsBlank(s[k]))
  {
    var i := LeadingBlanks(s);
    var tail := s[i..];
    var j := i + |tail| - TrailingBlanks(tail);
    assert Trim(s) == s[i..j];
    forall k | j <= k < |s| ensures IsBlank(s[k]) {
      assert s[k] == tail[k - i];
    }
  }

  /** Blanks around a word without blanks at its ends are all that `Trim`
      removes. */
  lemma TrimPadded(lead: string, w: string, trail: string)
    requires forall k :: 0 <= k < |lead| ==> IsBlank(lead[k])
    requires forall k :: 0 <= k < |trail| ==> IsBlank(trail[k])
    requires w != [] && IsTrimmed(w)
    ensures Trim(lead + w + trail) == w
  {
    var s := lead + w + trail;
    var t := Trim(s);
    TrimIsSlice(s);
    var i, j :| && 0 <= i <= j <= |s| && t == s[i..j]
                && (forall k :: 0 <= k < i ==> IsBlank(s[k]))
                && (forall k :: j <= k < |s| ==> IsBlank(s[k]));
    PaddedSlice(lead, w, trail, i, j);
  }

  /** The only slice of a padded word that has blanks around it and none at
      its own ends is the word itself. */
  lemma PaddedSlice(lead: string, w: string, trail: string, i: nat, j: nat)
    requires forall k :: 0 <= k < |lead| ==> IsBlank(lead[k])
    requires forall k :: 0 <= k < |trail| ==> IsBlank(trail[k])
    requires w != [] && IsTrimmed(w)
    requires i <= j <= |lead + w + trail|
    requires forall k :: 0 <= k < i ==> IsBlank((lead + w + trail)[k])
    requires forall k :: j <= k < |lead + w + trail| ==> IsBlank((lead + w + trail)[k])
    requires IsTrimmed((lead + w + trail)[i..j])
    ensures (lead + w + trail)[i..j] == w
  {
    var s := lead + w + trail;
    var a, b := |lead|, |lead| + |w|;
    assert s[a] == w[0] && s[b - 1] == w[|w| - 1];
    assert i <= a && b <= j;
    assert s[i..j][0] == s[i] && s[i..j][j - i - 1] == s[j - 1];
    assert s[a..b] == w;
  }

  /** A blank in front of a trimmed word is trimmed away. */
  lemma TrimLeadingBlank(w: string)
    requires w != [] && IsTrimmed(w)
    ensures Trim([' '] + w) == w
  {
  }

  /** Every one of the pieces `s` falls into when cut at each `sep`,
      empty pieces included. */
  function Split(s: string, sep: char): (r: seq<string>)
    ensures |r| >= 1
    ensures forall k :: 0 <= k < |r| ==> sep !in r[k]
  {
    if s == [] then [[]]
    else
      var rest := Split(s[1..], sep);
      if s[0] == sep then [[]] + rest
      else [[s[0]] + rest[0]] + rest[1..]
  }

  /** Every character of a piece comes from the string that was cut. */
  lemma {:induction false} SplitKeepsCharacters(s: string, sep: char)
    ensures forall k, c :: 0 <= k < |Split(s, sep)| && c in Split(s, sep)[k] ==> c in s
  {
    if s != [] {
      SplitKeepsCharacters(s[1..], sep);
      var rest := Split(s[1..], sep);
      assert forall c :: c in s[1..] ==> c in s;
      if s[0] != sep {
        assert forall c :: c in [s[0]] + rest[0] ==> c == s[0] || c in rest[0];
      }
    }
  }

  /** Glues the pieces back together with `sep` between them. */
  function Join(ts: seq<string>, sep: char): string
    requires |ts| >= 1
  {
    if |ts| == 1 then ts[0] else ts[0] + [sep] + Join(ts[1..], sep)
  }

  /** Cutting at every separator loses nothing. */
  lemma {:induction false} JoinSplit(s: string, sep: char)
    ensures Join(Split(s, sep), sep) == s
  {
    if s != [] {
      var rest := Split(s[1..], sep);
      JoinSplit(s[1..], sep);
      assert s == [s[0]] + s[1..];
      if s[0] == sep {
        assert Split(s, sep) == [[]] + rest;
        assert ([[]] + rest)[1..] == rest;
        assert Join(Split(s, sep), sep) == [] + [sep] + Join(rest, sep);
      } else {
        var head := [s[0]] + rest[0];
        var r := [head] + rest[1..];
        assert Split(s, sep) == r;
        if |rest| == 1 {
          assert Join(r, sep) == head;
        } else {
          assert r[1..] == rest[1..];
          assert Join(r, sep) == head + [sep] + Join(rest[1..], sep);
          assert Join(rest, sep) == rest[0] + [sep] + Join(rest[1..], sep);
          assert head + [sep] + Join(rest[1..], sep) == [s[0]] + (rest[0] + [sep] + Join(rest[1..], sep));
        }
      }
    }
  }

  /** A separator-free prefix stays glued to the first piece of what follows. */
  lemma {:induction false} SplitPrefix(a: string, t: string, sep: char)
    requires sep !in a
    ensures Split(a + t, sep) == [a + Split(t, sep)[0]] + Split(t, sep)[1..]
  {
    if a != [] {
      assert (a + t)[0] == a[0];
      assert (a + t)[1..] == a[1..] + t;
      SplitPrefix(a[1..], t, sep);
      assert [a[0]] + (a[1..] + Split(t, sep)[0]) == a + Split(t, sep)[0];
    } else {
      var r := Split(t, sep);
      assert a + t == t && [] + r[0] == r[0];
      assert r == [r[0]] + r[1..];
    }
  }

  /** Joining separator-free pieces and cutting again gives the pieces back. */
  lemma {:induction false} SplitJoin(ts: seq<string>, sep: char)
    requires |ts| >= 1
    requires forall k :: 0 <= k < |ts| ==> sep !in ts[k]
    ensures Split(Join(ts, sep), sep) == ts
  {
    if |ts| == 1 {
      SplitPrefix(ts[0], [], sep);
      assert ts[0] + [] == ts[0];
    } else {
      var j := Join(ts[1..], sep);
      SplitJoin(ts[1..], sep);
      assert ([sep] + j)[0] == sep && ([sep] + j)[1..] == j;
      assert Split([sep] + j, sep) == [[]] + ts[1..];
      SplitPrefix(ts[0], [sep] + j, sep);
      assert ts[0] + [sep] + j == ts[0] + ([sep] + j);
      assert ts[0] + [] == ts[0];
    }
  }

  /** The non-empty trimmed pieces, in order. */
  function NonEmptyTrimmed(ts: seq<string>): (r: seq<string>)
    ensures forall k :: 0 <= k < |r| ==> r[k] != [] && IsTrimmed(r[k])
    ensures forall t :: t in r <==> t != [] && exists k :: 0 <= k < |ts| && t == Trim(ts[k])
    ensures (forall k :: 0 <= k < |ts| ==> Trim(ts[k]) == []) ==> r == []
  {
    if ts == [] then []
    else
      var t := Trim(ts[0]);
      var rest := NonEmptyTrimmed(ts[1..]);
      assert forall k :: 0 < k < |ts| ==> ts[k] == ts[1..][k - 1];
      if t == [] then rest else [t] + rest
  }

  /** `StringHelper.splitAndTrim(s, sep)`: the pieces of `s`, each trimmed,
      empty ones dropped. */
  function SplitAndTrim(s: string, sep: char): (r: seq<string>)
    ensures forall k :: 0 <= k < |r| ==> r[k] != [] && IsTrimmed(r[k]) && sep !in r[k]
  {
    var pieces := Split(s, sep);
    var r := NonEmptyTrimmed(pieces);
    assert forall k :: 0 <= k < |r| ==> sep !in r[k] by {
      forall k | 0 <= k < |r| ensures sep !in r[k] {
        assert r[k] in r;
        var j :| 0 <= j < |pieces| && r[k] == Trim(pieces[j]);
      }
    }
    r
  }

  /** The character for a decimal digit. */
  function DigitChar(d: nat): (c: char)
    requires d < 10
    ensures '0' <= c <= '9'
  {
    (('0' as int) + d) as char
  }

  /** The value of a decimal digit character. */
  function DigitValue(c: char): (d: nat)
    requires '0' <= c <= '9'
    ensures d < 10
  {
    (c as int) - ('0' as int)
  }

  predicate IsDigits(s: string) {
    forall k :: 0 <= k < |s| ==> '0' <= s[k] <= '9'
  }

  /** Decimal digits of a natural number, without leading zeros. */
  function NatToString(n: nat): (s: string)
    ensures s != [] && IsDigits(s)
  {
    if n < 10 then [DigitChar(n)] else NatToString(n / 10) + [DigitChar(n % 10)]
  }

  /** `Long.toString`: a minus sign for negative values, then the digits. */
  function LongToString(n: int): (s: string)
    ensures s != [] && IsTrimmed(s) && ',' !in s
  {
    if n < 0 then "-" + NatToString(-n) else NatToString(n)
  }

  /** Reads a digit string back as a number. */
  function ParseDigits(s: string): nat
    requires IsDigits(s)
  {
    if s == [] then 0 else 10 * ParseDigits(s[..|s| - 1]) + DigitValue(s[|s| - 1])
  }

  lemma {:induction false} ParseNatToString(n: nat)
    ensures ParseDigits(NatToString(n)) == n
  {
    var s := NatToString(n);
    if n < 10 {
      assert s[..0] == [];
    } else {
      ParseNatToString(n / 10);
      assert s[..|s| - 1] == NatToString(n / 10);
    }
  }

  /** Two ids have the same decimal form only when they are equal, so a
      requested token can match at most one layout id. */
  lemma LongToStringInjective(a: int, b: int)
    requires LongToString(a) == LongToString(b)
    ensures a == b
  {
    var s := LongToString(a);
    assert a < 0 <==> s[0] == '-';
    assert b < 0 <==> s[0] == '-';
    if a < 0 {
      assert NatToString(-a) == s[1..] == NatToString(-b);
      NatToStringInjective(-a, -b);
    } else {
      NatToStringInjective(a, b);
    }
  }

  /** Distinct natural numbers have distinct decimal forms. */
  lemma NatToStringInjective(x: nat, y: nat)
    requires NatToString(x) == NatToString(y)
    ensures x == y
  {
    ParseNatToString(x);
    ParseNatToString(y);
  }
}

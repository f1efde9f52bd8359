/**
 * String helpers with the meaning Python's `str` methods have.
 *
 * Whitespace is Python's `str.isspace` set exactly (it is also what the `\s`
 * class of a `str` regular expression matches).  Case mapping, `\w` and `\d`
 * are restricted to ASCII.
 */
module Text {

  datatype Option<T> = None | Some(value: T)

  /** Python's `str.isspace` for one character. */
  predicate IsSpace(c: char)
  {
    ('\U{0009}' <= c <= '\U{000D}') || ('\U{001C}' <= c <= '\U{0020}') ||
    c == '\U{0085}' || c == '\U{00A0}' || c == '\U{1680}' ||
    ('\U{2000}' <= c <= '\U{200A}') || c == '\U{2028}' || c == '\U{2029}' ||
    c == '\U{202F}' || c == '\U{205F}' || c == '\U{3000}'
  }

  predicate IsDigit(c: char) { '0' <= c <= '9' }
  predicate IsUpperAscii(c: char) { 'A' <= c <= 'Z' }
  predicate IsLowerAscii(c: char) { 'a' <= c <= 'z' }
  predicate IsAlpha(c: char) { IsUpperAscii(c) || IsLowerAscii(c) }
  /** The `\w` class, ASCII part. */
  predicate IsWordChar(c: char) { IsAlpha(c) || IsDigit(c) || c == '_' }
  predicate IsAscii(c: char) { c <= '\U{007F}' }

  function LowerChar(c: char): char
  {
    if IsUpperAscii(c) then (c as int + 32) as char else c
  }

  function UpperChar(c: char): char
  {
    if IsLowerAscii(c) then (c as int - 32) as char else c
  }

  function Lower(s: string): string
  {
    seq(|s|, i requires 0 <= i < |s| => LowerChar(s[i]))
  }

  function Upper(s: string): string
  {
    seq(|s|, i requires 0 <= i < |s| => UpperChar(s[i]))
  }

  /** Case-insensitive equality, as `a.lower() == b.lower()`. */
  predicate EqualsCI(a: string, b: string)
  {
    Lower(a) == Lower(b)
  }

  function LStrip(s: string): string
  {
    if |s| > 0 && IsSpace(s[0]) then LStrip(s[1..]) else s
  }

  function RStrip(s: string): string
  {
    if |s| > 0 && IsSpace(s[|s| - 1]) then RStrip(s[..|s| - 1]) else s
  }

  /** Python's `s.strip()`. */
  function Strip(s: string): string
  {
    RStrip(LStrip(s))
  }

  /** Python's `s.strip(chars)` for an explicit set of characters. */
  function StripChars(s: string, chars: set<char>): string
  {
    if |s| > 0 && s[0] in chars then StripChars(s[1..], chars)
    else if |s| > 0 && s[|s| - 1] in chars then StripChars(s[..|s| - 1], chars)
    else s
  }

  /** Python's `s.rstrip(chars)`. */
  function RStripChars(s: string, chars: set<char>): string
  {
    if |s| > 0 && s[|s| - 1] in chars then RStripChars(s[..|s| - 1], chars) else s
  }

  /** `s.rstrip(chars)` is a prefix of `s` and only removed characters of `chars`. */
  lemma {:induction false} RStripCharsShape(s: string, chars: set<char>)
    ensures |RStripChars(s, chars)| <= |s| && s[..|RStripChars(s, chars)|] == RStripChars(s, chars)
    ensures forall k :: |RStripChars(s, chars)| <= k < |s| ==> s[k] in chars
    ensures |RStripChars(s, chars)| == 0 || RStripChars(s, chars)[|RStripChars(s, chars)| - 1] !in chars
  {
    if |s| > 0 && s[|s| - 1] in chars {
      RStripCharsShape(s[..|s| - 1], chars);
    }
  }

  /** No element occurs twice. */
  predicate NoDuplicates(xs: seq<string>)
  {
    forall i, j :: 0 <= i < j < |xs| ==> xs[i] != xs[j]
  }

  /** The elements of a list, as a set. */
  function Elements(xs: seq<string>): set<string>
  {
    set x | x in xs
  }

  /** One more element. */
  lemma ElementsSnoc(xs: seq<string>, x: string)
    ensures Elements(xs + [x]) == Elements(xs) + {x}
  {
  }

  predicate IsBlank(s: string)
  {
    forall i :: 0 <= i < |s| ==> IsSpace(s[i])
  }

  predicate StartsWith(s: string, p: string)
  {
    |p| <= |s| && s[..|p|] == p
  }

  predicate EndsWith(s: string, p: string)
  {
    |p| <= |s| && s[|s| - |p|..] == p
  }

  /** `p` occurs in `s` starting at index `i`. */
  predicate OccursAt(s: string, p: string, i: int)
  {
    0 <= i <= |s| - |p| && s[i..i + |p|] == p
  }

  /** Python's `p in s` for strings. */
  predicate Contains(s: string, p: string)
  {
    exists i | 0 <= i <= |s| - |p| :: OccursAt(s, p, i)
  }

  /** `p.lower() in s.lower()`. */
  predicate ContainsCI(s: string, p: string)
  {
    Contains(Lower(s), Lower(p))
  }

  /** Python's `sep.join(parts)`. */
  function Join(parts: seq<string>, sep: string): string
  {
    if |parts| == 0 then ""
    else if |parts| == 1 then parts[0]
    else parts[0] + sep + Join(parts[1..], sep)
  }

  /** Python's `s.split(c)` for a one-character separator. */
  function Split(s: string, c: char): seq<string>
    ensures |Split(s, c)| >= 1
  {
    SplitFrom(s, c, "")
  }

  function SplitFrom(s: string, c: char, acc: string): seq<string>
    ensures |SplitFrom(s, c, acc)| >= 1
  {
    if |s| == 0 then [acc]
    else if s[0] == c then [acc] + SplitFrom(s[1..], c, "")
    else SplitFrom(s[1..], c, acc + [s[0]])
  }

  /** Python's `s.replace(pat, rep)`, including the empty `pat` case. */
  function ReplaceAll(s: string, pat: string, rep: string): string
  {
    if |pat| == 0 then
      if |s| == 0 then rep else rep + [s[0]] + ReplaceAll(s[1..], pat, rep)
    else if |s| < |pat| then s
    else if s[..|pat|] == pat then rep + ReplaceAll(s[|pat|..], pat, rep)
    else [s[0]] + ReplaceAll(s[1..], pat, rep)
  }

  /** Replace every occurrence of one character by a string. */
  function ReplaceChar(s: string, c: char, rep: string): string
  {
    if |s| == 0 then ""
    else (if s[0] == c then rep else [s[0]]) + ReplaceChar(s[1..], c, rep)
  }

  function DigitValue(c: char): nat
    requires IsDigit(c)
  {
    c as int - '0' as int
  }

  predicate AllDigits(s: string)
  {
    forall i :: 0 <= i < |s| ==> IsDigit(s[i])
  }

  /** The value of a string of decimal digits. */
  function DigitsValue(s: string): nat
    requires AllDigits(s)
  {
    if |s| == 0 then 0 else DigitsValue(s[..|s| - 1]) * 10 + DigitValue(s[|s| - 1])
  }

  function DigitChar(d: nat): char
    requires d < 10
  {
    ('0' as int + d) as char
  }

  /** Python's `str(n)` for a natural number. */
  function NatToString(n: nat): string
  {
    if n < 10 then [DigitChar(n)] else NatToString(n / 10) + [DigitChar(n % 10)]
  }

  /** Python's `str(i)` for an integer. */
  function IntToString(i: int): string
  {
    if i < 0 then "-" + NatToString(-i) else NatToString(i)
  }

  /** `str(n).zfill(w)` / `f"{n:0wd}"` for a natural number. */
  function PadNat(n: nat, w: nat): string
  {
    var s := NatToString(n);
    if |s| >= w then s else seq(w - |s|, _ => '0') + s
  }

  lemma NatToStringDigits(n: nat)
    ensures |NatToString(n)| >= 1 && AllDigits(NatToString(n))
    ensures DigitsValue(NatToString(n)) == n
  {
    if n >= 10 {
      NatToStringDigits(n / 10);
      var s := NatToString(n);
      assert s[..|s| - 1] == NatToString(n / 10);
    }
  }

  lemma NatToStringInjective(a: nat, b: nat)
    requires NatToString(a) == NatToString(b)
    ensures a == b
  {
    NatToStringDigits(a);
    NatToStringDigits(b);
  }

  lemma LowerLength(s: string)
    ensures |Lower(s)| == |s|
  {
  }

  lemma LowerIdempotent(s: string)
    ensures Lower(Lower(s)) == Lower(s)
  {
  }

  lemma {:induction false} LStripShape(s: string)
    ensures |LStrip(s)| <= |s| && LStrip(s) == s[|s| - |LStrip(s)|..]
    ensures |LStrip(s)| == 0 || !IsSpace(LStrip(s)[0])
    ensures IsBlank(s[..|s| - |LStrip(s)|])
  {
    if |s| > 0 && IsSpace(s[0]) {
      var t := s[1..];
      LStripShape(t);
      var k := |s| - |LStrip(s)|;
      assert s[k..] == t[k - 1..];
      forall i | 0 <= i < k ensures IsSpace(s[..k][i]) {
        if i > 0 {
          assert s[..k][i] == t[..k - 1][i - 1];
        }
      }
    }
  }

  lemma {:induction false} RStripShape(s: string)
    ensures |RStrip(s)| <= |s| && RStrip(s) == s[..|RStrip(s)|]
    ensures |RStrip(s)| == 0 || !IsSpace(RStrip(s)[|RStrip(s)| - 1])
    ensures IsBlank(s[|RStrip(s)|..])
  {
    if |s| > 0 && IsSpace(s[|s| - 1]) {
      var t := s[..|s| - 1];
      RStripShape(t);
      var k := |RStrip(s)|;
      assert s[..k] == t[..k];
      var tail := s[k..];
      forall i | 0 <= i < |tail| ensures IsSpace(tail[i]) {
        if i < |tail| - 1 {
          assert tail[i] == t[k..][i];
        }
      }
    }
  }

  lemma RStripKeepsStart(s: string)
    requires |s| == 0 || !IsSpace(s[0])
    ensures |RStrip(s)| == 0 || !IsSpace(RStrip(s)[0])
  {
    RStripShape(s);
  }

  /** `s.strip()` has no whitespace at either end. */
  lemma StripShape(s: string)
    ensures |Strip(s)| == 0 || (!IsSpace(Strip(s)[0]) && !IsSpace(Strip(s)[|Strip(s)| - 1]))
    ensures |Strip(s)| <= |s|
  {
    LStripShape(s);
    RStripShape(LStrip(s));
    RStripKeepsStart(LStrip(s));
  }

  lemma StripBlank(s: string)
    ensures Strip(s) == "" <==> IsBlank(s)
  {
    LStripShape(s);
    RStripShape(LStrip(s));
    if IsBlank(s) {
      LStripAllBlank(s);
    }
  }

  lemma {:induction false} LStripAllBlank(s: string)
    requires IsBlank(s)
    ensures LStrip(s) == ""
  {
    if |s| > 0 {
      LStripAllBlank(s[1..]);
    }
  }

  lemma LStripNoLead(s: string)
    requires |s| == 0 || !IsSpace(s[0])
    ensures LStrip(s) == s
  {
  }

  lemma RStripNoTrail(s: string)
    requires |s| == 0 || !IsSpace(s[|s| - 1])
    ensures RStrip(s) == s
  {
  }

  /** Stripping twice is stripping once. */
  lemma StripIdempotent(s: string)
    ensures Strip(Strip(s)) == Strip(s)
  {
    StripShape(s);
    var t := Strip(s);
    LStripNoLead(t);
    RStripNoTrail(t);
  }

  lemma StripNoEnds(s: string)
    requires |s| == 0 || (!IsSpace(s[0]) && !IsSpace(s[|s| - 1]))
    ensures Strip(s) == s
  {
    LStripNoLead(s);
    RStripNoTrail(s);
  }

  lemma ContainsEmpty(s: string)
    ensures Contains(s, "")
  {
    ContainsAt(s, "", 0);
  }

  lemma ContainsSelf(s: string)
    ensures Contains(s, s)
  {
    ContainsAt(s, s, 0);
  }

  lemma ContainsAt(s: string, p: string, i: int)
    requires OccursAt(s, p, i)
    ensures Contains(s, p)
  {
  }

  lemma JoinSingleton(x: string, sep: string)
    ensures Join([x], sep) == x
  {
  }

  lemma JoinAppend(parts: seq<string>, x: string, sep: string)
    requires |parts| >= 1
    ensures Join(parts + [x], sep) == Join(parts, sep) + sep + x
  {
    if |parts| == 1 {
      assert parts + [x] == [parts[0], x];
    } else {
      assert (parts + [x])[1..] == parts[1..] + [x];
      JoinAppend(parts[1..], x, sep);
    }
  }

  /** Python's `str.title()`: a letter is upper-cased after a non-letter, lower-cased after a letter. */
  function Title(s: string): string
  {
    seq(|s|, i requires 0 <= i < |s| =>
      if !IsAlpha(s[i]) then s[i]
      else if i == 0 || !IsAlpha(s[i - 1]) then UpperChar(s[i])
      else LowerChar(s[i]))
  }

  lemma TitleIdempotent(s: string)
    ensures Title(Title(s)) == Title(s)
  {
    var t := Title(s);
    forall i | 0 <= i < |s| ensures IsAlpha(t[i]) <==> IsAlpha(s[i]) {
      CaseKeepsAlpha(s[i]);
    }
    forall i | 0 <= i < |s| ensures Title(t)[i] == t[i] {
      CaseKeepsAlpha(s[i]);
      if IsAlpha(s[i]) {
        CaseIdempotent(s[i]);
      }
    }
  }

  /** Changing case keeps letters letters and leaves other characters alone. */
  lemma CaseKeepsAlpha(c: char)
    ensures IsAlpha(UpperChar(c)) <==> IsAlpha(c)
    ensures IsAlpha(LowerChar(c)) <==> IsAlpha(c)
    ensures !IsAlpha(c) ==> UpperChar(c) == c && LowerChar(c) == c
  {
  }

  /** Upper-casing an upper-cased letter, or lower-casing a lower-cased one, changes nothing. */
  lemma CaseIdempotent(c: char)
    ensures UpperChar(UpperChar(c)) == UpperChar(c) && LowerChar(LowerChar(c)) == LowerChar(c)
    ensures UpperChar(LowerChar(c)) == UpperChar(c) && LowerChar(UpperChar(c)) == LowerChar(c)
  {
  }

  /** Python's `int(s)` for decimal text: a sign, then digits with single underscores between them. */
  function ParseInt(s: string): Option<int>
  {
    if |s| > 0 && (s[0] == '+' || s[0] == '-') then
      match ParseDigits(s[1..])
      case Some(v) =>
        var n: int := if s[0] == '-' then 0 - v else v;
        Some(n)
      case None => None
    else
      match ParseDigits(s)
      case Some(v) => Some(v)
      case None => None
  }

  /** Digits separated by single underscores. */
  predicate UnderscoredDigits(t: string)
  {
    |t| > 0 && IsDigit(t[0]) && IsDigit(t[|t| - 1]) &&
    (forall i :: 0 <= i < |t| ==> IsDigit(t[i]) || t[i] == '_') &&
    (forall i :: 0 <= i < |t| - 1 && t[i] == '_' ==> IsDigit(t[i + 1]))
  }

  function WithoutUnderscores(t: string): (r: string)
    requires forall i :: 0 <= i < |t| ==> IsDigit(t[i]) || t[i] == '_'
    ensures AllDigits(r)
  {
    if |t| == 0 then "" else (if t[0] == '_' then "" else [t[0]]) + WithoutUnderscores(t[1..])
  }

  function ParseDigits(t: string): Option<nat>
  {
    if UnderscoredDigits(t) then Some(DigitsValue(WithoutUnderscores(t))) else None
  }

  lemma WithoutUnderscoresOfDigits(t: string)
    requires AllDigits(t)
    ensures WithoutUnderscores(t) == t
  {
  }

  /** Python's `int(s)` on text: surrounding whitespace is ignored. */
  function PyInt(s: string): Option<int>
  {
    ParseInt(Strip(s))
  }

  /** A slice bound as Python resolves it: negative counts from the end, then clamped. */
  function SliceIndex(i: int, n: nat): (r: nat)
    ensures r <= n
  {
    if i < 0 then (if i + n < 0 then 0 else i + n) else if i > n then n else i
  }

  /** Python's `s[a:b]`. */
  function PySlice(s: string, a: int, b: int): string
  {
    var lo := SliceIndex(a, |s|);
    var hi := SliceIndex(b, |s|);
    if lo < hi then s[lo..hi] else ""
  }

  lemma {:induction false} SplitFromNoSeparator(s: string, c: char, acc: string)
    requires c !in s
    ensures SplitFrom(s, c, acc) == [acc + s]
  {
    if |s| > 0 {
      assert s[0] in s;
      SplitFromNoSeparator(s[1..], c, acc + [s[0]]);
      assert acc + [s[0]] + s[1..] == acc + s;
    } else {
      assert acc + s == acc;
    }
  }

  /** Appending one character either starts a new part or extends the last one. */
  lemma {:induction false} SplitFromSnoc(s: string, x: char, c: char, acc: string)
    ensures var p := SplitFrom(s, c, acc);
            SplitFrom(s + [x], c, acc) ==
              if x == c then p + [""] else p[..|p| - 1] + [p[|p| - 1] + [x]]
  {
    if |s| == 0 {
      assert s + [x] == [x];
    } else {
      assert (s + [x])[1..] == s[1..] + [x];
      if s[0] == c {
        SplitFromSnoc(s[1..], x, c, "");
      } else {
        SplitFromSnoc(s[1..], x, c, acc + [s[0]]);
      }
    }
  }

  lemma SplitSnoc(s: string, x: char, c: char)
    ensures var p := Split(s, c);
            Split(s + [x], c) == if x == c then p + [""] else p[..|p| - 1] + [p[|p| - 1] + [x]]
  {
    SplitFromSnoc(s, x, c, "");
  }

  /** Replacing a one-character pattern is replacing that character. */
  lemma {:induction false} ReplaceAllOneChar(s: string, c: char, rep: string)
    ensures ReplaceAll(s, [c], rep) == ReplaceChar(s, c, rep)
  {
    if |s| > 0 {
      ReplaceAllOneChar(s[1..], c, rep);
      assert s[..1] == [s[0]];
    }
  }

  /** Mapping a character to a different one leaves none of it behind. */
  lemma {:induction false} ReplaceCharSpec(s: string, c: char, d: char)
    ensures |ReplaceChar(s, c, [d])| == |s|
    ensures forall i :: 0 <= i < |s| ==> ReplaceChar(s, c, [d])[i] == if s[i] == c then d else s[i]
    ensures c != d ==> c !in ReplaceChar(s, c, [d])
    ensures c !in s ==> ReplaceChar(s, c, [d]) == s
  {
    if |s| > 0 {
      ReplaceCharSpec(s[1..], c, d);
      var r := ReplaceChar(s, c, [d]);
      assert forall i :: 1 <= i < |s| ==> r[i] == ReplaceChar(s[1..], c, [d])[i - 1];
      if c !in s {
        assert s[0] in s;
        assert c !in s[1..];
        assert [s[0]] + s[1..] == s;
      }
    }
  }
}

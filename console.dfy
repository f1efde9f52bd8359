/**
 * Console-safe log messages (utils/logger.py, `sanitize_message_for_console`):
 * a fixed table of symbols is spelled out in ASCII, then every maximal run
 * of characters beyond U+007F becomes one '?'.
 */
module Console {
  import opened Text

  /** The replacement table, in the order the loop applies it. */
  const Replacements: seq<(char, string)> := [
    ('\U{2192}', "->"), ('\U{2190}', "<-"), ('\U{2705}', "[OK]"), ('\U{2714}', "[OK]"), ('\U{2713}', "[OK]"),
    ('\U{274C}', "[ERROR]"), ('\U{26A0}', "[WARNING]"), ('\U{2014}', "-"), ('\U{2013}', "-"), ('\U{2026}', "..."),
    ('\U{00AE}', "(R)"), ('\U{00A9}', "(C)"), ('\U{2122}', "(TM)"), ('\'', "'"), ('"', "\"")]

  /** The message after the loop has applied `pairs` in order, each with `str.replace`. */
  function ApplyAll(s: string, pairs: seq<(char, string)>): string
  {
    if |pairs| == 0 then s
    else
      var p := pairs[|pairs| - 1];
      ReplaceChar(ApplyAll(s, pairs[..|pairs| - 1]), p.0, p.1)
  }

  /** The leading run of non-ASCII characters dropped. */
  function SkipNonAscii(s: string): (r: string)
    ensures |r| <= |s| && (|s| > 0 && !IsAscii(s[0]) ==> |r| < |s|)
  {
    if |s| > 0 && !IsAscii(s[0]) then SkipNonAscii(s[1..]) else s
  }

  /** `re.sub(r'[^\x00-\x7F]+', '?', s)`: matched left to right, each run as long as it goes. */
  function Collapse(s: string): string
    decreases |s|
  {
    if |s| == 0 then ""
    else if IsAscii(s[0]) then [s[0]] + Collapse(s[1..])
    else "?" + Collapse(SkipNonAscii(s))
  }

  /** `sanitize_message_for_console` on values. */
  function Sanitized(msg: string): string
  {
    Collapse(ApplyAll(msg, Replacements))
  }

  /** The loop over the table, then the one substitution. */
  method SanitizeMessageForConsole(msg: string) returns (r: string)
    ensures r == Sanitized(msg)
  {
    var m := msg;
    for i := 0 to |Replacements|
      invariant m == ApplyAll(msg, Replacements[..i])
    {
      assert Replacements[..i + 1][..i] == Replacements[..i];
      m := ReplaceChar(m, Replacements[i].0, Replacements[i].1);
    }
    assert Replacements[..|Replacements|] == Replacements;
    r := Collapse(m);
  }

  // ---------------------------------------------------------------------
  // The substitution
  // ---------------------------------------------------------------------

  /** Every character of the result is ASCII. */
  lemma {:induction false} CollapseAscii(s: string)
    ensures forall i :: 0 <= i < |Collapse(s)| ==> IsAscii(Collapse(s)[i])
    decreases |s|
  {
    if |s| > 0 {
      if IsAscii(s[0]) {
        CollapseAscii(s[1..]);
      } else {
        CollapseAscii(SkipNonAscii(s));
      }
    }
  }

  /** Text that is already ASCII is left as it is. */
  lemma {:induction false} CollapseKeepsAscii(s: string)
    requires forall i :: 0 <= i < |s| ==> IsAscii(s[i])
    ensures Collapse(s) == s
  {
    if |s| > 0 {
      CollapseKeepsAscii(s[1..]);
    }
  }

  /** Skipping the leading run stops inside `a` when `a` ends in an ASCII character. */
  lemma {:induction false} SkipAppend(a: string, x: string)
    requires |a| > 0 && IsAscii(a[|a| - 1])
    ensures SkipNonAscii(a + x) == SkipNonAscii(a) + x
    ensures |SkipNonAscii(a)| > 0 && SkipNonAscii(a)[|SkipNonAscii(a)| - 1] == a[|a| - 1]
  {
    if !IsAscii(a[0]) {
      assert (a + x)[1..] == a[1..] + x;
      SkipAppend(a[1..], x);
    }
  }

  /** Text ending in an ASCII character is substituted independently of what follows. */
  lemma {:induction false} CollapseAppend(a: string, x: string)
    requires |a| == 0 || IsAscii(a[|a| - 1])
    ensures Collapse(a + x) == Collapse(a) + Collapse(x)
    decreases |a|
  {
    if |a| > 0 {
      if IsAscii(a[0]) {
        assert (a + x)[1..] == a[1..] + x;
        CollapseAppend(a[1..], x);
      } else {
        SkipAppend(a, x);
        CollapseAppend(SkipNonAscii(a), x);
      }
    } else {
      assert a + x == x;
    }
  }

  /** Text made only of characters beyond U+007F. */
  predicate NonAsciiRun(r: string)
  {
    forall i :: 0 <= i < |r| ==> !IsAscii(r[i])
  }

  /** A run of non-ASCII characters followed by an ASCII character or the end is skipped whole. */
  lemma {:induction false} SkipRun(r: string, b: string)
    requires NonAsciiRun(r)
    requires |b| == 0 || IsAscii(b[0])
    ensures SkipNonAscii(r + b) == b
  {
    if |r| > 0 {
      assert (r + b)[1..] == r[1..] + b;
      SkipRun(r[1..], b);
    } else {
      assert r + b == b;
    }
  }

  /**
   * Each maximal run of non-ASCII characters becomes exactly one '?': a run
   * between text ending in ASCII (or nothing) and text starting with ASCII
   * (or nothing) is replaced by a single '?', and the rest is treated alone.
   */
  lemma RunBecomesOneMark(a: string, r: string, b: string)
    requires |a| == 0 || IsAscii(a[|a| - 1])
    requires |r| > 0 && NonAsciiRun(r)
    requires |b| == 0 || IsAscii(b[0])
    ensures Collapse(a + r + b) == Collapse(a) + "?" + Collapse(b)
  {
    var rb := r + b;
    assert a + r + b == a + rb;
    CollapseAppend(a, rb);
    CollapseRun(r, b);
    Concat3(Collapse(a), "?", Collapse(b));
  }

  /** Joining three texts does not depend on the grouping. */
  lemma Concat3(x: string, y: string, z: string)
    ensures x + (y + z) == x + y + z
  {
  }

  /** A run of non-ASCII characters at the front becomes one '?'. */
  lemma CollapseRun(r: string, b: string)
    requires |r| > 0 && NonAsciiRun(r)
    requires |b| == 0 || IsAscii(b[0])
    ensures Collapse(r + b) == "?" + Collapse(b)
  {
    var s := r + b;
    assert s[0] == r[0];
    assert !IsAscii(s[0]);
    assert Collapse(s) == "?" + Collapse(SkipNonAscii(s));
    SkipRun(r, b);
  }

  // ---------------------------------------------------------------------
  // The replacement table
  // ---------------------------------------------------------------------

  /** The spelling of one character: its table entry (the first with that key), or the character itself. */
  function Lookup(pairs: seq<(char, string)>, c: char): string
  {
    if |pairs| == 0 then [c] else if pairs[0].0 == c then pairs[0].1 else Lookup(pairs[1..], c)
  }

  /** Every character replaced by its spelling at once. */
  function MapChars(s: string, pairs: seq<(char, string)>): string
  {
    if |s| == 0 then "" else Lookup(pairs, s[0]) + MapChars(s[1..], pairs)
  }

  /**
   * A table whose sequential application is a per-character map: distinct
   * keys, and no key occurring in an earlier entry's spelling unless it
   * is spelled as itself.
   */
  predicate Independent(pairs: seq<(char, string)>)
  {
    forall j, k :: 0 <= j < k < |pairs| ==>
      pairs[j].0 != pairs[k].0 && (pairs[k].1 == [pairs[k].0] || pairs[k].0 !in pairs[j].1)
  }

  lemma {:induction false} ReplaceConcat(a: string, b: string, c: char, rep: string)
    ensures ReplaceChar(a + b, c, rep) == ReplaceChar(a, c, rep) + ReplaceChar(b, c, rep)
  {
    if |a| > 0 {
      assert (a + b)[1..] == a[1..] + b;
      ReplaceConcat(a[1..], b, c, rep);
    } else {
      assert a + b == b;
    }
  }

  lemma {:induction false} ReplaceAbsent(s: string, c: char, rep: string)
    requires c !in s
    ensures ReplaceChar(s, c, rep) == s
  {
    if |s| > 0 {
      ReplaceAbsent(s[1..], c, rep);
    }
  }

  lemma {:induction false} ReplaceSelf(s: string, c: char)
    ensures ReplaceChar(s, c, [c]) == s
  {
    if |s| > 0 {
      ReplaceSelf(s[1..], c);
    }
  }

  /** Applying one more entry to a spelling gives the spelling under the longer table. */
  lemma {:induction false} LookupSnoc(pairs: seq<(char, string)>, p: (char, string), c: char)
    requires Independent(pairs + [p])
    ensures Lookup(pairs + [p], c) == ReplaceChar(Lookup(pairs, c), p.0, p.1)
  {
    var all := pairs + [p];
    if |pairs| == 0 {
      assert all == [p];
      assert ReplaceChar([c], p.0, p.1) == (if c == p.0 then p.1 else [c]) + ReplaceChar([], p.0, p.1);
    } else if pairs[0].0 == c {
      assert all[0] == pairs[0] && all[|pairs|] == p;
      if p.1 == [p.0] {
        ReplaceSelf(pairs[0].1, p.0);
      } else {
        ReplaceAbsent(pairs[0].1, p.0, p.1);
      }
    } else {
      assert all[1..] == pairs[1..] + [p];
      assert Independent(pairs[1..] + [p]) by {
        forall j, k | 0 <= j < k < |pairs[1..] + [p]|
          ensures (pairs[1..] + [p])[j].0 != (pairs[1..] + [p])[k].0 &&
                  ((pairs[1..] + [p])[k].1 == [(pairs[1..] + [p])[k].0] || (pairs[1..] + [p])[k].0 !in (pairs[1..] + [p])[j].1)
        {
          assert (pairs[1..] + [p])[j] == all[j + 1] && (pairs[1..] + [p])[k] == all[k + 1];
        }
      }
      LookupSnoc(pairs[1..], p, c);
    }
  }

  /** Applying one more entry to the mapped text maps under the longer table. */
  lemma {:induction false} MapCharsSnoc(s: string, pairs: seq<(char, string)>, p: (char, string))
    requires Independent(pairs + [p])
    ensures MapChars(s, pairs + [p]) == ReplaceChar(MapChars(s, pairs), p.0, p.1)
  {
    if |s| > 0 {
      MapCharsSnoc(s[1..], pairs, p);
      LookupSnoc(pairs, p, s[0]);
      ReplaceConcat(Lookup(pairs, s[0]), MapChars(s[1..], pairs), p.0, p.1);
    }
  }

  /** Applying an independent table entry by entry is the per-character map. */
  lemma {:induction false} ApplyAllIsMap(s: string, pairs: seq<(char, string)>)
    requires Independent(pairs)
    ensures ApplyAll(s, pairs) == MapChars(s, pairs)
  {
    if |pairs| == 0 {
      MapCharsEmpty(s);
    } else {
      var front := pairs[..|pairs| - 1];
      var p := pairs[|pairs| - 1];
      assert front + [p] == pairs;
      assert Independent(front) by {
        forall j, k | 0 <= j < k < |front| ensures front[j].0 != front[k].0 && (front[k].1 == [front[k].0] || front[k].0 !in front[j].1) {
          assert front[j] == pairs[j] && front[k] == pairs[k];
        }
      }
      ApplyAllIsMap(s, front);
      MapCharsSnoc(s, front, p);
    }
  }

  lemma {:induction false} MapCharsEmpty(s: string)
    ensures MapChars(s, []) == s
  {
    if |s| > 0 {
      MapCharsEmpty(s[1..]);
    }
  }

  /** The program's table is independent: its keys differ and its spellings are plain ASCII without quotes. */
  lemma ReplacementsIndependent()
    ensures Independent(Replacements)
  {
    forall j, k | 0 <= j < k < |Replacements|
      ensures Replacements[j].0 != Replacements[k].0 &&
              (Replacements[k].1 == [Replacements[k].0] || Replacements[k].0 !in Replacements[j].1)
    {
      if k < 13 {
        assert !IsAscii(Replacements[k].0);
        assert forall i :: 0 <= i < |Replacements[j].1| ==> IsAscii(Replacements[j].1[i]);
      }
    }
  }

  /** An ASCII character is spelled as itself by the program's table. */
  lemma LookupAscii(c: char)
    requires IsAscii(c)
    ensures Lookup(Replacements, c) == [c]
  {
    var t := Replacements;
    assert forall j :: 0 <= j < 13 ==> !IsAscii(t[j].0);
    LookupSkip(t, 13, c);
    var tail := t[13..];
    assert tail == [('\'', "'"), ('"', "\"")];
    assert tail[1..] == [('"', "\"")] && tail[1..][1..] == [];
    if c != '\'' && c != '"' {
      assert Lookup(tail[1..][1..], c) == [c];
    }
  }

  /** Entries whose keys differ from `c` are passed over. */
  lemma {:induction false} LookupSkip(pairs: seq<(char, string)>, n: nat, c: char)
    requires n <= |pairs| && forall j :: 0 <= j < n ==> pairs[j].0 != c
    ensures Lookup(pairs, c) == Lookup(pairs[n..], c)
  {
    if n > 0 {
      LookupSkip(pairs[1..], n - 1, c);
      assert pairs[1..][n - 1..] == pairs[n..];
    }
  }

  lemma {:induction false} MapCharsAscii(s: string)
    requires forall i :: 0 <= i < |s| ==> IsAscii(s[i])
    ensures MapChars(s, Replacements) == s
  {
    if |s| > 0 {
      LookupAscii(s[0]);
      MapCharsAscii(s[1..]);
    }
  }

  // ---------------------------------------------------------------------
  // The sanitised message
  // ---------------------------------------------------------------------

  /**
   * The message is each character's spelling from the table, put through
   * the run substitution; the result holds only ASCII characters.
   */
  lemma SanitizedSpec(msg: string)
    ensures Sanitized(msg) == Collapse(MapChars(msg, Replacements))
    ensures forall i :: 0 <= i < |Sanitized(msg)| ==> IsAscii(Sanitized(msg)[i])
  {
    ReplacementsIndependent();
    ApplyAllIsMap(msg, Replacements);
    CollapseAscii(MapChars(msg, Replacements));
  }

  /** An all-ASCII message comes back unchanged. */
  lemma SanitizedAscii(msg: string)
    requires forall i :: 0 <= i < |msg| ==> IsAscii(msg[i])
    ensures Sanitized(msg) == msg
  {
    SanitizedSpec(msg);
    MapCharsAscii(msg);
    CollapseKeepsAscii(msg);
  }
}

/**
 * The path composer used for real moves (utils/scheme_evaluator.py,
 * `SchemeEvaluator.evaluate` and `evaluate_schemes`): the folder scheme and
 * the saving scheme are each rewritten by four regular-expression passes
 * (`%token%`, `$year(..)`, blank-bracket cleanup to a fixed point, whitespace
 * collapse), the folder result is offered to the saving scheme as
 * `%foldername%`, and the two are joined into the destination path.
 */
module SchemePaths {
  import opened Text
  import SchemeLang

  /** The metadata handed to the composer: every value is a string. */
  type Metadata = map<string, string>

  /** `md.get(key, "")`. */
  function Lookup(md: Metadata, key: string): string
  {
    if key in md then md[key] else ""
  }

  // ---------------------------------------------------------------------
  // The extended copy of the metadata
  // ---------------------------------------------------------------------

  /** The two `add`/`additional` statements, in source order. */
  function SyncAdd(md: Metadata): Metadata
  {
    var m := if "add" in md && "additional" !in md then md["additional" := md["add"]] else md;
    if "additional" in m && "add" !in m then m["add" := m["additional"]] else m
  }

  /**
   * Present values are kept; when exactly one of `add` and `additional` is
   * present the other receives its value, and nothing else is added.
   */
  lemma SyncAddSpec(md: Metadata)
    ensures forall k :: k in md ==> k in SyncAdd(md) && SyncAdd(md)[k] == md[k]
    ensures "add" in md && "additional" !in md ==> SyncAdd(md)["additional"] == md["add"]
    ensures "additional" in md && "add" !in md ==> SyncAdd(md)["add"] == md["additional"]
    ensures ("add" in SyncAdd(md) <==> "additional" in SyncAdd(md))
    ensures SyncAdd(md).Keys == md.Keys + (if "add" in md || "additional" in md then {"add", "additional"} else {})
  {
  }

  /** The `currentfoldername` injection. */
  function WithCurrentFolderName(md: Metadata): Metadata
  {
    var p := Lookup(md, "current_folder");
    if p != "" then md["currentfoldername" := SchemeLang.PathName(p)]
    else if "currentfoldername" in md then md
    else md["currentfoldername" := ""]
  }

  /** `md_extended` before the folder scheme is evaluated. */
  function Extend(md: Metadata): Metadata
  {
    WithCurrentFolderName(SyncAdd(md))
  }

  /**
   * `currentfoldername` is the last component of a non-empty `current_folder`,
   * otherwise the value already there, otherwise ""; no other key but the
   * add/additional pair changes.
   */
  lemma ExtendSpec(md: Metadata)
    ensures "currentfoldername" in Extend(md)
    ensures Lookup(md, "current_folder") != "" ==>
              Extend(md)["currentfoldername"] == SchemeLang.PathName(md["current_folder"]) &&
              '/' !in Extend(md)["currentfoldername"]
    ensures Lookup(md, "current_folder") == "" ==>
              Extend(md)["currentfoldername"] == Lookup(md, "currentfoldername")
    ensures forall k :: k in md && k !in {"add", "additional", "currentfoldername"} ==>
              k in Extend(md) && Extend(md)[k] == md[k]
  {
    SyncAddSpec(md);
    if Lookup(md, "current_folder") != "" {
      SchemeLang.PathNameSpec(md["current_folder"], "", "");
    }
  }

  // ---------------------------------------------------------------------
  // `re.sub(r"%(\w+)%", replace_token, text)`
  // ---------------------------------------------------------------------

  /** `replace_token`: the key is lowercased; a missing or empty value gives "". */
  function TokenReplacement(md: Metadata, name: string): string
  {
    Lookup(md, Lower(name))
  }

  function TokenPass(md: Metadata, s: string, i: nat): string
    requires i <= |s|
    decreases |s| - i
  {
    if i == |s| then ""
    else match SchemeLang.TokenAt(s, i)
      case Some(e) => TokenReplacement(md, s[i + 1..e]) + TokenPass(md, s, e + 1)
      case None => [s[i]] + TokenPass(md, s, i + 1)
  }

  /** Text without '%' is copied unchanged. */
  lemma {:induction false} TokenPassPlain(md: Metadata, s: string, i: nat)
    requires i <= |s| && '%' !in s
    ensures TokenPass(md, s, i) == s[i..]
    decreases |s| - i
  {
    if i < |s| {
      assert s[i] in s;
      TokenPassPlain(md, s, i + 1);
      assert s[i..] == [s[i]] + s[i + 1..];
    } else {
      assert s[i..] == [];
    }
  }

  /**
   * A `%name%` token whose name is a non-empty run of word characters is
   * replaced by the value stored under the lowercased name, so the lookup
   * ignores the case the scheme writes the token in.
   */
  lemma TokenPassAt(md: Metadata, s: string, i: nat, e: nat)
    requires i + 1 < e < |s| && s[i] == '%' && s[e] == '%'
    requires forall k :: i + 1 <= k < e ==> IsWordChar(s[k])
    ensures TokenPass(md, s, i) == Lookup(md, Lower(s[i + 1..e])) + TokenPass(md, s, e + 1)
  {
    assert !IsWordChar(s[e]);
    SchemeLang.NameRunEndAt(s, i + 1, e);
    assert SchemeLang.TokenAt(s, i) == Some(e);
  }

  // ---------------------------------------------------------------------
  // `re.sub(r"\$year\(([^)]+)\)", repl_year, text)`
  // ---------------------------------------------------------------------

  /** The first ')' at or after `j`. */
  function FindClose(s: string, j: nat): (r: Option<nat>)
    requires j <= |s|
    ensures r.Some? ==> j <= r.value < |s| && s[r.value] == ')'
    decreases |s| - j
  {
    if j == |s| then None
    else if s[j] == ')' then Some(j)
    else FindClose(s, j + 1)
  }

  lemma {:induction false} FindCloseFirst(s: string, j: nat)
    requires j <= |s|
    ensures FindClose(s, j).Some? ==> ')' !in s[j..FindClose(s, j).value]
    ensures FindClose(s, j).None? ==> ')' !in s[j..]
    decreases |s| - j
  {
    if j < |s| && s[j] != ')' {
      FindCloseFirst(s, j + 1);
      assert s[j..] == [s[j]] + s[j + 1..];
      if FindClose(s, j).Some? {
        assert s[j..FindClose(s, j).value] == [s[j]] + s[j + 1..FindClose(s, j).value];
      }
    } else if j < |s| {
      assert s[j..j] == [];
    } else {
      assert s[j..] == [];
    }
  }

  /** A `$year(...)` call starting at `i`: the index of its ')'. */
  function YearAt(s: string, i: nat): (r: Option<nat>)
    requires i <= |s|
    ensures r.Some? ==> i + 6 < r.value < |s| && s[r.value] == ')'
  {
    if i + 6 <= |s| && s[i..i + 6] == "$year(" then
      match FindClose(s, i + 6)
      case Some(k) => if k > i + 6 then Some(k) else None
      case None => None
    else None
  }

  /**
   * `repl_year`: a metadata key (after stripping blanks and '%' and
   * lowercasing) gives the first four characters of its value, or "" when
   * the value is shorter; otherwise four leading digits of the stripped
   * argument, or "".
   */
  function YearValue(md: Metadata, inside: string): (r: string)
    ensures |r| == 0 || |r| == 4
  {
    var t := Strip(inside);
    var key := Lower(StripChars(t, {'%'}));
    if key in md then
      (if |md[key]| >= 4 then md[key][..4] else "")
    else if |t| >= 4 && AllDigits(t[..4]) then t[..4]
    else ""
  }

  function YearPass(md: Metadata, s: string, i: nat): string
    requires i <= |s|
    decreases |s| - i
  {
    if i == |s| then ""
    else
      var y := YearAt(s, i);
      if y.Some? then YearValue(md, s[i + 6..y.value]) + YearPass(md, s, y.value + 1)
      else [s[i]] + YearPass(md, s, i + 1)
  }

  /** Text without '$' is copied unchanged. */
  lemma {:induction false} YearPassPlain(md: Metadata, s: string, i: nat)
    requires i <= |s| && '$' !in s
    ensures YearPass(md, s, i) == s[i..]
    decreases |s| - i
  {
    if i < |s| {
      NoYearAt(s, i);
      YearPassPlain(md, s, i + 1);
      YearPassChar(md, s, i);
      assert s[i..] == [s[i]] + s[i + 1..];
    } else {
      assert s[i..] == [];
    }
  }

  /** No call starts at a character other than '$'. */
  lemma NoYearAt(s: string, i: nat)
    requires i < |s| && s[i] != '$'
    ensures YearAt(s, i).None?
  {
    if i + 6 <= |s| {
      assert s[i..i + 6][0] == s[i];
    }
  }

  /** Where no call starts, the pass copies one character. */
  lemma YearPassChar(md: Metadata, s: string, i: nat)
    requires i < |s| && YearAt(s, i).None?
    ensures YearPass(md, s, i) == [s[i]] + YearPass(md, s, i + 1)
  {
  }

  /**
   * `$year(` followed by a non-empty argument free of ')' and then ')' is
   * replaced by the year of that argument.
   */
  lemma YearPassAt(md: Metadata, s: string, i: nat, k: nat)
    requires i + 6 < k < |s| && s[i..i + 6] == "$year(" && s[k] == ')'
    requires ')' !in s[i + 6..k]
    ensures YearPass(md, s, i) == YearValue(md, s[i + 6..k]) + YearPass(md, s, k + 1)
  {
    FindCloseAt(s, i + 6, k);
    assert YearAt(s, i) == Some(k);
  }

  /** The first ')' is the one with no ')' before it. */
  lemma {:induction false} FindCloseAt(s: string, j: nat, k: nat)
    requires j <= k < |s| && s[k] == ')' && ')' !in s[j..k]
    ensures FindClose(s, j) == Some(k)
    decreases k - j
  {
    if j < k {
      assert s[j] in s[j..k];
      assert s[j + 1..k] == s[j..k][1..];
      FindCloseAt(s, j + 1, k);
    }
  }

  /** A key (in any case, with or without '%') reads the year from its value. */
  lemma YearValueOfKey(md: Metadata, inside: string)
    requires Lower(StripChars(Strip(inside), {'%'})) in md
    ensures var v := md[Lower(StripChars(Strip(inside), {'%'}))];
            YearValue(md, inside) == if |v| >= 4 then v[..4] else ""
  {
  }

  // ---------------------------------------------------------------------
  // `clean_brackets`
  // ---------------------------------------------------------------------

  predicate IsOpen(c: char) { c == '[' || c == '(' || c == '{' }
  predicate IsClose(c: char) { c == ']' || c == ')' || c == '}' }
  predicate IsBracket(c: char) { IsOpen(c) || IsClose(c) }

  /** The first bracket character at or after `j`, or the end. */
  function BracketEnd(s: string, j: nat): (r: nat)
    requires j <= |s|
    ensures j <= r <= |s| && (r == |s| || IsBracket(s[r]))
    ensures forall k :: j <= k < r ==> !IsBracket(s[k])
    decreases |s| - j
  {
    if j == |s| || IsBracket(s[j]) then j else BracketEnd(s, j + 1)
  }

  /**
   * The pattern `[\[\(\{][^\[\]\(\)\{\}]*[\]\)\}]` at `i`: an opening
   * bracket, no bracket of any kind, then a closing bracket of any kind.
   * Returns the index of the closing bracket.
   */
  function GroupAt(s: string, i: nat): (r: Option<nat>)
    requires i <= |s|
    ensures r.Some? ==> i < r.value < |s| && IsOpen(s[i]) && IsClose(s[r.value])
  {
    if i < |s| && IsOpen(s[i]) then
      var k := BracketEnd(s, i + 1);
      if k < |s| && IsClose(s[k]) then Some(k) else None
    else None
  }

  /** A group at `i` whose content is only whitespace. */
  predicate BlankGroupAt(s: string, i: nat)
    requires i <= |s|
  {
    GroupAt(s, i).Some? && IsBlank(s[i + 1..GroupAt(s, i).value])
  }

  /** What replaces the group `s[i..k + 1]`: nothing when its content is blank, else the group itself. */
  function GroupReplacement(s: string, i: nat, k: nat): (r: string)
    requires i < k < |s|
    ensures r == "" || r == s[i..k + 1]
    ensures r == "" <==> IsBlank(s[i + 1..k])
  {
    if IsBlank(s[i + 1..k]) then "" else s[i..k + 1]
  }

  /** One `pattern.sub(replacer, text)`: blank groups go, other groups stay. */
  function BracketPass(s: string, i: nat): (r: string)
    requires i <= |s|
    ensures |r| <= |s| - i
    decreases |s| - i
  {
    if i == |s| then ""
    else
      var g := GroupAt(s, i);
      if g.Some? then GroupReplacement(s, i, g.value) + BracketPass(s, g.value + 1)
      else [s[i]] + BracketPass(s, i + 1)
  }

  /** No group starts inside a group or at its closing bracket. */
  lemma NoGroupInside(s: string, i: nat, j: nat)
    requires i <= |s| && GroupAt(s, i).Some? && i < j <= GroupAt(s, i).value
    ensures GroupAt(s, j).None?
  {
  }

  /** A text in which no blank group starts is left as it is. */
  lemma {:induction false} BracketPassUnchanged(s: string, i: nat)
    requires i <= |s|
    requires forall j :: i <= j < |s| ==> !BlankGroupAt(s, j)
    ensures BracketPass(s, i) == s[i..]
    decreases |s| - i
  {
    if i == |s| {
      assert s[i..] == [];
    } else {
      var g := GroupAt(s, i);
      if g.Some? {
        var k := g.value;
        BracketPassUnchanged(s, k + 1);
        UnchangedGroupStep(s, i, k);
      } else {
        BracketPassUnchanged(s, i + 1);
        UnchangedCharStep(s, i);
      }
    }
  }

  lemma UnchangedGroupStep(s: string, i: nat, k: nat)
    requires i < k < |s| && GroupAt(s, i) == Some(k) && !BlankGroupAt(s, i)
    requires BracketPass(s, k + 1) == s[k + 1..]
    ensures BracketPass(s, i) == s[i..]
  {
    assert !IsBlank(s[i + 1..k]);
    var whole := s[i..k + 1];
    assert GroupReplacement(s, i, k) == whole;
    PassAtGroup(s, i, k);
    assert s[i..] == whole + s[k + 1..];
  }

  /** A pass at a group start: the group's replacement, then the pass after its closing bracket. */
  lemma PassAtGroup(s: string, i: nat, k: nat)
    requires i < |s| && GroupAt(s, i) == Some(k)
    ensures BracketPass(s, i) == GroupReplacement(s, i, k) + BracketPass(s, k + 1)
  {
    var g := GroupAt(s, i);
    assert BracketPass(s, i) == GroupReplacement(s, i, g.value) + BracketPass(s, g.value + 1);
  }

  lemma UnchangedCharStep(s: string, i: nat)
    requires i < |s| && GroupAt(s, i).None?
    requires BracketPass(s, i + 1) == s[i + 1..]
    ensures BracketPass(s, i) == s[i..]
  {
    assert BracketPass(s, i) == [s[i]] + s[i + 1..];
    assert s[i..] == [s[i]] + s[i + 1..];
  }

  /** A pass that removes nothing found no blank group. */
  lemma {:induction false} BracketPassFull(s: string, i: nat)
    requires i <= |s| && |BracketPass(s, i)| == |s| - i
    ensures forall j :: i <= j < |s| ==> !BlankGroupAt(s, j)
    decreases |s| - i
  {
    if i < |s| {
      var g := GroupAt(s, i);
      if g.Some? {
        var k := g.value;
        GroupKeptWhole(s, i, k);
        BracketPassFull(s, k + 1);
        GroupNoBlankInside(s, i, k);
      } else {
        assert BracketPass(s, i) == [s[i]] + BracketPass(s, i + 1);
        BracketPassFull(s, i + 1);
      }
    }
  }

  /** When a pass keeps its full length, a group it meets is not blank and the rest is kept whole too. */
  lemma GroupKeptWhole(s: string, i: nat, k: nat)
    requires i < |s| && GroupAt(s, i) == Some(k) && |BracketPass(s, i)| == |s| - i
    ensures !IsBlank(s[i + 1..k]) && |BracketPass(s, k + 1)| == |s| - (k + 1)
  {
    PassAtGroup(s, i, k);
  }

  /** A group that is not blank holds no blank group from its start to its closing bracket. */
  lemma GroupNoBlankInside(s: string, i: nat, k: nat)
    requires i < |s| && GroupAt(s, i) == Some(k) && !IsBlank(s[i + 1..k])
    ensures forall j :: i <= j <= k ==> !BlankGroupAt(s, j)
  {
    forall j | i < j <= k
      ensures !BlankGroupAt(s, j)
    {
      NoGroupInside(s, i, j);
    }
  }

  /**
   * A pass never lengthens the text; it leaves the text as it is exactly
   * when no blank group starts anywhere in it.
   */
  lemma BracketPassShape(s: string)
    ensures |BracketPass(s, 0)| <= |s|
    ensures BracketPass(s, 0) == s <==> forall j :: 0 <= j < |s| ==> !BlankGroupAt(s, j)
    ensures |BracketPass(s, 0)| == |s| ==> BracketPass(s, 0) == s
  {
    if |BracketPass(s, 0)| == |s| {
      BracketPassFull(s, 0);
      BracketPassUnchanged(s, 0);
    }
    if forall j :: 0 <= j < |s| ==> !BlankGroupAt(s, j) {
      BracketPassUnchanged(s, 0);
    }
    if BracketPass(s, 0) == s {
      BracketPassFull(s, 0);
    }
  }

  /** `clean_brackets`: passes until one changes nothing. */
  function CleanBracketsFix(s: string): string
    decreases |s|
  {
    var t := BracketPass(s, 0);
    BracketPassShape(s);
    if t == s then s else CleanBracketsFix(t)
  }

  /**
   * The cleaned text holds no whitespace-only group, a text holding none is
   * left unchanged, and cleanup only ever shortens.
   */
  lemma {:induction false} CleanBracketsSpec(s: string)
    ensures forall j :: 0 <= j < |CleanBracketsFix(s)| ==> !BlankGroupAt(CleanBracketsFix(s), j)
    ensures (forall j :: 0 <= j < |s| ==> !BlankGroupAt(s, j)) ==> CleanBracketsFix(s) == s
    ensures |CleanBracketsFix(s)| <= |s|
    decreases |s|
  {
    BracketPassShape(s);
    var t := BracketPass(s, 0);
    if t != s {
      CleanBracketsSpec(t);
    }
  }

  /** The `while prev_text != curr_text` loop. */
  method CleanBrackets(text: string) returns (r: string)
    ensures r == CleanBracketsFix(text)
    ensures BracketPass(r, 0) == r
  {
    var prev: Option<string> := None;
    var curr := text;
    while prev != Some(curr)
      invariant prev.None? ==> curr == text
      invariant prev.Some? ==> curr == BracketPass(prev.value, 0)
      invariant prev.Some? ==> |curr| < |prev.value| || curr == prev.value
      invariant CleanBracketsFix(curr) == CleanBracketsFix(text)
      decreases if prev.None? then |text| + 1 else |prev.value|
    {
      BracketPassShape(curr);
      prev := Some(curr);
      curr := BracketPass(curr, 0);
    }
    r := curr;
  }

  // ---------------------------------------------------------------------
  // `re.sub(r"\s{2,}", " ", text).strip()`
  // ---------------------------------------------------------------------

  /** The end of the whitespace run starting at `j`. */
  function SpaceRunEnd(s: string, j: nat): (r: nat)
    requires j <= |s|
    ensures j <= r <= |s| && (r == |s| || !IsSpace(s[r]))
    decreases |s| - j
  {
    if j < |s| && IsSpace(s[j]) then SpaceRunEnd(s, j + 1) else j
  }

  /** Each run of two or more whitespace characters becomes one space. */
  function CollapsePass(s: string, i: nat): string
    requires i <= |s|
    decreases |s| - i
  {
    if i == |s| then ""
    else if i + 1 < |s| && IsSpace(s[i]) && IsSpace(s[i + 1]) then " " + CollapsePass(s, SpaceRunEnd(s, i))
    else [s[i]] + CollapsePass(s, i + 1)
  }

  /** No two whitespace characters stand next to each other. */
  predicate NoDoubleSpace(s: string)
  {
    forall k :: 0 <= k < |s| - 1 ==> !IsSpace(s[k]) || !IsSpace(s[k + 1])
  }

  /** The collapsed text has no adjacent whitespace. */
  lemma {:induction false} CollapseNoDouble(s: string, i: nat)
    requires i <= |s|
    ensures var r := CollapsePass(s, i);
            NoDoubleSpace(r) && (i < |s| ==> |r| > 0 && (IsSpace(r[0]) <==> IsSpace(s[i])))
    decreases |s| - i
  {
    if i < |s| {
      if i + 1 < |s| && IsSpace(s[i]) && IsSpace(s[i + 1]) {
        var e := SpaceRunEnd(s, i);
        CollapseNoDouble(s, e);
        ConsNoDouble(' ', CollapsePass(s, e));
        assert CollapsePass(s, i) == [' '] + CollapsePass(s, e);
      } else {
        CollapseNoDouble(s, i + 1);
        ConsNoDouble(s[i], CollapsePass(s, i + 1));
      }
    }
  }

  /** A character in front of a text without adjacent whitespace keeps it so, unless both are whitespace. */
  lemma ConsNoDouble(c: char, t: string)
    requires NoDoubleSpace(t) && (|t| > 0 && IsSpace(c) ==> !IsSpace(t[0]))
    ensures NoDoubleSpace([c] + t)
  {
    var r := [c] + t;
    forall k | 0 <= k < |r| - 1 ensures !IsSpace(r[k]) || !IsSpace(r[k + 1]) {
      if k > 0 {
        assert r[k] == t[k - 1] && r[k + 1] == t[k];
      }
    }
  }

  /** A text without adjacent whitespace is left as it is. */
  lemma {:induction false} CollapseFixed(s: string, i: nat)
    requires i <= |s| && NoDoubleSpace(s)
    ensures CollapsePass(s, i) == s[i..]
    decreases |s| - i
  {
    if i < |s| {
      CollapseFixed(s, i + 1);
      assert s[i..] == [s[i]] + s[i + 1..];
    } else {
      assert s[i..] == [];
    }
  }

  /** Stripping keeps a text free of adjacent whitespace. */
  lemma StripNoDouble(s: string)
    requires NoDoubleSpace(s)
    ensures NoDoubleSpace(Strip(s))
  {
    LStripShape(s);
    var l := LStrip(s);
    RStripShape(l);
    var a := |s| - |l|;
    var r := Strip(s);
    assert r == RStrip(l);
    forall k | 0 <= k < |r| - 1 ensures !IsSpace(r[k]) || !IsSpace(r[k + 1]) {
      assert r[k] == l[k] == s[a + k];
      assert r[k + 1] == l[k + 1] == s[a + k + 1];
    }
  }

  // ---------------------------------------------------------------------
  // One scheme, and the whole path
  // ---------------------------------------------------------------------

  /** The four passes on one scheme (an absent scheme is ""). */
  function EvalScheme(md: Metadata, scheme: string): string
  {
    Strip(CollapsePass(CleanBracketsFix(YearPass(md, TokenPass(md, scheme, 0), 0)), 0))
  }

  /** A scheme result has no whitespace at its ends and none doubled. */
  lemma EvalSchemeShape(md: Metadata, scheme: string)
    ensures var r := EvalScheme(md, scheme);
            NoDoubleSpace(r) && (|r| == 0 || (!IsSpace(r[0]) && !IsSpace(r[|r| - 1])))
  {
    var c := CleanBracketsFix(YearPass(md, TokenPass(md, scheme, 0), 0));
    CollapseNoDouble(c, 0);
    StripNoDouble(CollapsePass(c, 0));
    StripShape(CollapsePass(c, 0));
  }

  /** An empty saving result or "(root)" in any case places the folder at the top. */
  predicate IsRoot(savingEval: string)
  {
    Lower(savingEval) == "(root)" || savingEval == ""
  }

  /** `evaluate` as a value (the pathlib join written as "/"). */
  function EvaluatePath(md: Metadata, folderScheme: string, savingScheme: string): string
  {
    var ext := Extend(md);
    var folderEval := EvalScheme(ext, folderScheme);
    var savingEval := EvalScheme(ext["foldername" := folderEval], savingScheme);
    if folderEval == "" then ""
    else
      var fullPath := if IsRoot(savingEval) then folderEval else savingEval + "/" + folderEval;
      Strip(ReplaceAll(fullPath, "\\", "/"))
  }

  lemma ReplaceKeepsEnds(s: string)
    requires |s| == 0 || (!IsSpace(s[0]) && !IsSpace(s[|s| - 1]))
    ensures var r := ReplaceAll(s, "\\", "/");
            r == ReplaceChar(s, '\\', "/") && |r| == |s| && '\\' !in r && Strip(r) == r
  {
    ReplaceAllOneChar(s, '\\', "/");
    ReplaceCharSpec(s, '\\', '/');
    var r := ReplaceAll(s, "\\", "/");
    if |s| > 0 {
      assert r[0] == (if s[0] == '\\' then '/' else s[0]);
      assert r[|r| - 1] == (if s[|s| - 1] == '\\' then '/' else s[|s| - 1]);
    }
    StripNoEnds(r);
  }

  /**
   * The path is "" exactly when the folder result is ""; otherwise it is the
   * folder result under a root saving result, else saving + "/" + folder,
   * with every backslash turned into '/'. The saving scheme sees the folder
   * result under `foldername`.
   */
  lemma EvaluatePathSpec(md: Metadata, folderScheme: string, savingScheme: string)
    ensures var ext := Extend(md);
            var folderEval := EvalScheme(ext, folderScheme);
            var ext2 := ext["foldername" := folderEval];
            var savingEval := EvalScheme(ext2, savingScheme);
            var r := EvaluatePath(md, folderScheme, savingScheme);
            Lookup(ext2, "foldername") == folderEval &&
            (r == "" <==> folderEval == "") &&
            '\\' !in r &&
            (folderEval != "" && IsRoot(savingEval) ==> r == ReplaceChar(folderEval, '\\', "/")) &&
            (folderEval != "" && !IsRoot(savingEval) ==> r == ReplaceChar(savingEval + "/" + folderEval, '\\', "/"))
  {
    var ext := Extend(md);
    var folderEval := EvalScheme(ext, folderScheme);
    var savingEval := EvalScheme(ext["foldername" := folderEval], savingScheme);
    EvalSchemeShape(ext, folderScheme);
    EvalSchemeShape(ext["foldername" := folderEval], savingScheme);
    if folderEval != "" {
      FinishPath(folderEval, savingEval);
    }
  }

  /** Joining two evaluated schemes and replacing backslashes leaves nothing for the final strip. */
  lemma FinishPath(folderEval: string, savingEval: string)
    requires folderEval != "" && !IsSpace(folderEval[0]) && !IsSpace(folderEval[|folderEval| - 1])
    requires |savingEval| == 0 || !IsSpace(savingEval[0])
    ensures var fullPath := if IsRoot(savingEval) then folderEval else savingEval + "/" + folderEval;
            var r := ReplaceChar(fullPath, '\\', "/");
            Strip(ReplaceAll(fullPath, "\\", "/")) == r && r != "" && '\\' !in r
  {
    var fullPath := if IsRoot(savingEval) then folderEval else savingEval + "/" + folderEval;
    assert fullPath[|fullPath| - 1] == folderEval[|folderEval| - 1];
    ReplaceKeepsEnds(fullPath);
  }

  /** `evaluate`, step by step on a local copy of the metadata. */
  method Evaluate(md: Metadata, folderScheme: string, savingScheme: string) returns (fullPath: string)
    ensures fullPath == EvaluatePath(md, folderScheme, savingScheme)
  {
    var mdExtended := md;
    if "add" in mdExtended && "additional" !in mdExtended {
      mdExtended := mdExtended["additional" := mdExtended["add"]];
    }
    if "additional" in mdExtended && "add" !in mdExtended {
      mdExtended := mdExtended["add" := mdExtended["additional"]];
    }
    var currentFolderPath := Lookup(mdExtended, "current_folder");
    if currentFolderPath != "" {
      mdExtended := mdExtended["currentfoldername" := SchemeLang.PathName(currentFolderPath)];
    } else if "currentfoldername" !in mdExtended {
      mdExtended := mdExtended["currentfoldername" := ""];
    }
    assert mdExtended == Extend(md);

    var folderEval := TokenPass(mdExtended, folderScheme, 0);
    folderEval := YearPass(mdExtended, folderEval, 0);
    folderEval := CleanBrackets(folderEval);
    folderEval := Strip(CollapsePass(folderEval, 0));

    mdExtended := mdExtended["foldername" := folderEval];

    var savingEval := TokenPass(mdExtended, savingScheme, 0);
    savingEval := YearPass(mdExtended, savingEval, 0);
    savingEval := CleanBrackets(savingEval);
    savingEval := Strip(CollapsePass(savingEval, 0));

    if folderEval == "" {
      return "";
    }
    if Lower(savingEval) == "(root)" || savingEval == "" {
      fullPath := folderEval;
    } else {
      fullPath := savingEval + "/" + folderEval;
    }
    fullPath := Strip(ReplaceAll(fullPath, "\\", "/"));
  }
}

/**
 * The template language of the scheme editor (scheme_editor/scheme_evaluator.py,
 * copied verbatim in gui/scheme_editor.py): `%token%` substitution, then
 * `$func(args)` calls, repeated for at most 20 passes until a pass changes
 * nothing.
 *
 * Python exceptions that escape `eval` are `Err` results.  The two copies
 * differ only in `$datetime()`: the canonical copy never imports `datetime`
 * and raises NameError, the editor copy reads the clock.  The clock reading
 * is the parameter `clock` (None for the canonical copy).  The nesting of
 * `eval` inside argument evaluation is bounded by `fuel`, standing for
 * Python's recursion limit.
 */
module SchemeLang {
  import opened Text
  import opened Dates

  /** A metadata value: the program stores strings and lists of strings. */
  datatype Value = Str(text: string) | List(items: seq<string>)

  type Metadata = map<string, Value>

  datatype Failure =
    | ValueError      // `int()` of a non-integer argument
    | IndexError      // `$pad` with an empty fill argument
    | TypeError       // a list where a string is required
    | NameError       // `$datetime()` in the copy without the import
    | RecursionLimit  // nesting deeper than the fuel
    | FloatResult     // a floating-point result, which is not modelled

  datatype Result<T> = Ok(value: T) | Err(failure: Failure)

  /** Two pieces computed in order: the first failure wins, else the texts are joined. */
  function Then(a: Result<string>, b: Result<string>): Result<string>
  {
    match a
    case Err(f) => Err(f)
    case Ok(x) =>
      match b
      case Err(g) => Err(g)
      case Ok(y) => Ok(x + y)
  }

  lemma ThenOk(a: string, b: string, r: Result<string>)
    ensures Then(Ok(a), Then(Ok(b), r)) == Then(Ok(a + b), r)
    ensures Then(Ok(""), r) == r
  {
    if r.Ok? {
      assert a + (b + r.value) == a + b + r.value;
      assert "" + r.value == r.value;
    }
  }

  /** `dict.get(key, dflt)`. */
  function Get(md: Metadata, key: string, dflt: Value): Value
  {
    if key in md then md[key] else dflt
  }

  // ---------------------------------------------------------------------
  // The constructor
  // ---------------------------------------------------------------------

  /** `Path(p).name` on POSIX: the last component, ignoring empty and "." components. */
  function PathName(p: string): string
  {
    LastComponent(Split(p, '/'))
  }

  function LastComponent(parts: seq<string>): (r: string)
    ensures r == "" || r in parts
  {
    if |parts| == 0 then ""
    else if parts[|parts| - 1] == "" || parts[|parts| - 1] == "." then LastComponent(parts[..|parts| - 1])
    else parts[|parts| - 1]
  }

  lemma {:induction false} SplitFromPartsNoSeparator(s: string, c: char, acc: string)
    requires c !in acc
    ensures forall part :: part in SplitFrom(s, c, acc) ==> c !in part
  {
    if |s| > 0 {
      if s[0] == c {
        SplitFromPartsNoSeparator(s[1..], c, "");
      } else {
        SplitFromPartsNoSeparator(s[1..], c, acc + [s[0]]);
      }
    }
  }

  lemma {:induction false} SplitFromLastPart(s: string, n: string, c: char, acc: string)
    requires c !in n
    ensures var p := SplitFrom(s + [c] + n, c, acc); p[|p| - 1] == n
  {
    if |s| == 0 {
      assert s + [c] + n == [c] + n;
      assert ([c] + n)[1..] == n;
      SplitFromNoSeparator(n, c, "");
    } else {
      assert (s + [c] + n)[1..] == s[1..] + [c] + n;
      if s[0] == c {
        SplitFromLastPart(s[1..], n, c, "");
      } else {
        SplitFromLastPart(s[1..], n, c, acc + [s[0]]);
      }
    }
  }

  /** The folder name has no '/' and is the final component of a path ending in a name. */
  lemma PathNameSpec(p: string, dir: string, name: string)
    ensures '/' !in PathName(p)
    ensures name != "" && name != "." && '/' !in name ==> PathName(dir + "/" + name) == name
  {
    SplitFromPartsNoSeparator(p, '/', "");
    if name != "" && name != "." && '/' !in name {
      SplitFromLastPart(dir, name, '/', "");
    }
  }

  /** The evaluator keeps its own copy of the metadata. */
  datatype Evaluator = Evaluator(metadata: Metadata)

  predicate Truthy(v: Value)
  {
    match v
    case Str(t) => t != ""
    case List(l) => |l| > 0
  }

  /** `SchemeEvaluator(metadata)` with `_inject_currentfoldername`. */
  function NewEvaluator(md: Metadata): Result<Evaluator>
  {
    var folder := Get(md, "current_folder", Str(""));
    if Truthy(folder) then
      match folder
      case Str(p) => Ok(Evaluator(md["currentfoldername" := Str(PathName(p))]))
      case List(_) => Err(TypeError)
    else if "currentfoldername" in md then Ok(Evaluator(md))
    else Ok(Evaluator(md["currentfoldername" := Str("")]))
  }

  /**
   * Construction fails only for a non-empty list as the current folder.
   * Otherwise every other key keeps its value, and currentfoldername is the
   * folder's last component, else the existing value, else "".
   */
  lemma NewEvaluatorSpec(md: Metadata)
    ensures NewEvaluator(md).Err? <==>
              "current_folder" in md && md["current_folder"].List? && |md["current_folder"].items| > 0
    ensures NewEvaluator(md).Ok? ==>
              var m := NewEvaluator(md).value.metadata;
              m.Keys == md.Keys + {"currentfoldername"} &&
              (forall k :: k in md && k != "currentfoldername" ==> m[k] == md[k]) &&
              m["currentfoldername"] ==
                (if "current_folder" in md && md["current_folder"].Str? && md["current_folder"].text != ""
                 then Str(PathName(md["current_folder"].text))
                 else if "currentfoldername" in md then md["currentfoldername"]
                 else Str(""))
  {
  }

  // ---------------------------------------------------------------------
  // Token pass: TOKEN_RE = %([a-zA-Z0-9_]+)%
  // ---------------------------------------------------------------------

  function NameRunEnd(s: string, i: nat): (e: nat)
    requires i <= |s|
    ensures i <= e <= |s| && (e == |s| || !IsWordChar(s[e]))
    ensures forall k :: i <= k < e ==> IsWordChar(s[k])
    decreases |s| - i
  {
    if i < |s| && IsWordChar(s[i]) then NameRunEnd(s, i + 1) else i
  }

  /** A run of word characters ended by a non-word character or the end. */
  lemma {:induction false} NameRunEndAt(s: string, i: nat, e: nat)
    requires i <= e <= |s| && (e == |s| || !IsWordChar(s[e]))
    requires forall k :: i <= k < e ==> IsWordChar(s[k])
    ensures NameRunEnd(s, i) == e
    decreases e - i
  {
    if i < e {
      NameRunEndAt(s, i + 1, e);
    }
  }

  /** A token starting at `i`: the index of its closing '%'. */
  function TokenAt(s: string, i: nat): (r: Option<nat>)
    requires i <= |s|
    ensures r.Some? ==> i + 1 < r.value < |s| && s[i] == '%' && s[r.value] == '%'
  {
    if i < |s| && s[i] == '%' then
      var e := NameRunEnd(s, i + 1);
      if e > i + 1 && e < |s| && s[e] == '%' then Some(e) else None
    else None
  }

  /** How `token_repl` reads a token name. */
  datatype TokenKind = Scalar(base: string) | Indexed(base: string, number: nat) | Generic

  /** `base` + "N" + digits. */
  function IndexedNumber(token: string, base: string): Option<nat>
  {
    var head := base + "N";
    if |token| > |head| && token[..|head|] == head && AllDigits(token[|head|..])
    then Some(DigitsValue(token[|head|..]))
    else None
  }

  /** `^(format|additional|source)(N(\d+))?$`; a bare "formatN" does not match. */
  function ClassifyToken(token: string): TokenKind
  {
    if token == "format" || token == "additional" || token == "source" then Scalar(token)
    else if IndexedNumber(token, "format").Some? then Indexed("format", IndexedNumber(token, "format").value)
    else if IndexedNumber(token, "additional").Some? then Indexed("additional", IndexedNumber(token, "additional").value)
    else if IndexedNumber(token, "source").Some? then Indexed("source", IndexedNumber(token, "source").value)
    else Generic
  }

  /** `token_repl`: the replacement text of one token. */
  function TokenValue(md: Metadata, token: string): Result<string>
  {
    match ClassifyToken(token)
    case Scalar(b) =>
      (match Get(md, b, Str(""))
       case Str(t) => Ok(t)
       case List(_) => Err(TypeError))
    case Indexed(b, n) =>
      var values := match Get(md, b + "N", List([])) case Str(t) => [t] case List(l) => l;
      if 1 <= n <= |values| then Ok(values[n - 1]) else Ok("")
    case Generic =>
      match Get(md, token, Str(""))
      case Str(t) => Ok(t)
      case List(l) => Ok(Join(l, ", "))
  }

  /** `TOKEN_RE.sub(token_repl, s[i..])`. */
  function TokenSub(md: Metadata, s: string, i: nat): Result<string>
    requires i <= |s|
    decreases |s| - i
  {
    if i == |s| then Ok("")
    else match TokenAt(s, i)
      case Some(e) => Then(TokenValue(md, s[i + 1..e]), TokenSub(md, s, e + 1))
      case None => Then(Ok([s[i]]), TokenSub(md, s, i + 1))
  }

  /** Text without '%' holds no token and passes through unchanged. */
  lemma {:induction false} TokenSubNoPercent(md: Metadata, s: string, i: nat)
    requires i <= |s| && '%' !in s
    ensures TokenSub(md, s, i) == Ok(s[i..])
    decreases |s| - i
  {
    if i < |s| {
      assert s[i] in s;
      assert TokenAt(s, i).None?;
      TokenSubNoPercent(md, s, i + 1);
      assert TokenSub(md, s, i) == Ok([s[i]] + s[i + 1..]);
      assert s[i..] == [s[i]] + s[i + 1..];
    } else {
      assert s[i..] == [];
    }
  }

  /** A token is replaced by its value in front of the rest of the pass. */
  lemma TokenSubAt(md: Metadata, s: string, i: nat, e: nat)
    requires i <= |s| && TokenAt(s, i) == Some(e)
    ensures TokenSub(md, s, i) == Then(TokenValue(md, s[i + 1..e]), TokenSub(md, s, e + 1))
  {
  }

  /** A stretch without '%' is copied as it is in front of the rest of the pass. */
  lemma {:induction false} TokenSubPlain(md: Metadata, s: string, i: nat, j: nat)
    requires i <= j <= |s|
    requires '%' !in s[i..j]
    ensures TokenSub(md, s, i) == Then(Ok(s[i..j]), TokenSub(md, s, j))
    decreases j - i
  {
    if i < j {
      assert s[i..j] == [s[i]] + s[i + 1..j];
      assert TokenAt(s, i).None?;
      TokenSubPlain(md, s, i + 1, j);
      ThenOk([s[i]], s[i + 1..j], TokenSub(md, s, j));
    } else {
      assert s[i..j] == "";
      ThenOk("", "", TokenSub(md, s, j));
    }
  }

  /**
   * "%formatN%" is not an indexed token: it is served by the generic
   * branch, so a list under "formatN" is joined with ", ".
   */
  lemma FormatNIsGeneric(md: Metadata)
    ensures ClassifyToken("formatN") == Generic
    ensures "formatN" in md && md["formatN"].List? ==>
              TokenValue(md, "formatN") == Ok(Join(md["formatN"].items, ", "))
  {
    assert IndexedNumber("formatN", "format").None?;
    assert IndexedNumber("formatN", "additional").None?;
    assert IndexedNumber("formatN", "source").None?;
  }

  lemma IndexedTokenKind(base: string, n: nat)
    requires base == "format" || base == "additional" || base == "source"
    ensures ClassifyToken(base + "N" + NatToString(n)) == Indexed(base, n)
  {
    var t := base + "N" + NatToString(n);
    IndexedNumberOf(base, n);
    assert t[0] == base[0];
    if base != "format" {
      OtherHead(t, "format");
    }
    if base == "source" {
      OtherHead(t, "additional");
    }
  }

  /** The token built from `base` and `n` reads back as `n` under `base`. */
  lemma IndexedNumberOf(base: string, n: nat)
    ensures IndexedNumber(base + "N" + NatToString(n), base) == Some(n)
  {
    NatToStringDigits(n);
    var t := base + "N" + NatToString(n);
    assert t[..|base + "N"|] == base + "N";
    assert t[|base + "N"|..] == NatToString(n);
  }

  /** A token whose first letter differs from the base's is not indexed under it. */
  lemma OtherHead(t: string, base: string)
    requires |t| > 0 && |base| > 0 && t[0] != base[0]
    ensures IndexedNumber(t, base).None?
  {
    var head := base + "N";
    if |t| > |head| {
      assert t[..|head|][0] != head[0];
    }
  }

  /**
   * "%formatN<k>%" (and the additional/source forms) is the k-th entry of
   * the list, a plain string counting as a one-element list, or "" when k
   * is out of range.
   */
  lemma IndexedTokenValue(md: Metadata, base: string, n: nat)
    requires base == "format" || base == "additional" || base == "source"
    ensures var values := match Get(md, base + "N", List([])) case Str(t) => [t] case List(l) => l;
            TokenValue(md, base + "N" + NatToString(n)) == if 1 <= n <= |values| then Ok(values[n - 1]) else Ok("")
  {
    IndexedTokenKind(base, n);
  }

  // ---------------------------------------------------------------------
  // Argument splitting: _split_args
  // ---------------------------------------------------------------------

  /** The loop variables of `_split_args`: finished arguments, current text, depth. */
  datatype SplitState = SplitState(args: seq<string>, current: string, depth: int)

  function SplitStep(st: SplitState, c: char): SplitState
  {
    if c == ',' && st.depth == 0 then SplitState(st.args + [Strip(st.current)], "", 0)
    else SplitState(st.args, st.current + [c], st.depth + (if c == '(' then 1 else if c == ')' then -1 else 0))
  }

  /** The loop state after reading all of `s`. */
  function SplitScan(s: string): SplitState
  {
    if |s| == 0 then SplitState([], "", 0) else SplitStep(SplitScan(s[..|s| - 1]), s[|s| - 1])
  }

  /** The arguments: a final segment is kept only when some character follows the last split. */
  function SplitArgs(s: string): seq<string>
  {
    var st := SplitScan(s);
    if st.current != "" then st.args + [Strip(st.current)] else st.args
  }

  /** `_split_args`, the while loop over the argument text. */
  method SplitArgsLoop(argstr: string) returns (args: seq<string>)
    ensures args == SplitArgs(argstr)
  {
    args := [];
    var current: string := [];
    var depth := 0;
    var i := 0;
    while i < |argstr|
      invariant 0 <= i <= |argstr|
      invariant SplitState(args, current, depth) == SplitScan(argstr[..i])
    {
      var c := argstr[i];
      assert argstr[..i + 1][..i] == argstr[..i];
      if c == ',' && depth == 0 {
        args := args + [Strip(current)];
        current := [];
      } else {
        if c == '(' {
          depth := depth + 1;
        } else if c == ')' {
          depth := depth - 1;
        }
        current := current + [c];
      }
      i := i + 1;
    }
    assert argstr[..|argstr|] == argstr;
    if current != [] {
      args := args + [Strip(current)];
    }
  }

  /** "" gives no argument, "a," one, and "a, " two, the second empty. */
  lemma SplitArgsTrailingComma()
    ensures SplitArgs("") == []
    ensures SplitArgs("a,") == ["a"]
    ensures SplitArgs("a, ") == ["a", ""]
  {
    ScanAComma();
    ScanACommaSpace();
    StripBlank(" ");
  }

  lemma ScanA()
    ensures SplitScan("a") == SplitState([], "a", 0)
  {
    assert "a"[..0] == "";
  }

  lemma ScanAComma()
    ensures SplitScan("a,") == SplitState(["a"], "", 0)
  {
    assert "a,"[..1] == "a";
    ScanA();
    StripNoEnds("a");
  }

  lemma ScanACommaSpace()
    ensures SplitScan("a, ") == SplitState(["a"], " ", 0)
  {
    assert "a, "[..2] == "a,";
    ScanAComma();
  }

  /** Without parentheses the arguments are the stripped comma-separated parts. */
  lemma {:induction false} SplitScanNoParens(s: string)
    requires '(' !in s && ')' !in s
    ensures SplitScan(s) == NoParenState(Split(s, ','))
  {
    if |s| > 0 {
      var init := s[..|s| - 1];
      var x := s[|s| - 1];
      assert init + [x] == s;
      SplitScanNoParens(init);
      SplitSnoc(init, x, ',');
      var p := Split(init, ',');
      if x == ',' {
        NoParenComma(p);
      } else {
        NoParenOther(p, x);
      }
    }
  }

  /** The scan state after a parenthesis-free text split at commas into `p`. */
  function NoParenState(p: seq<string>): SplitState
    requires |p| >= 1
  {
    SplitState(StripAllText(p[..|p| - 1]), p[|p| - 1], 0)
  }

  /** A comma closes the current part and opens an empty one. */
  lemma NoParenComma(p: seq<string>)
    requires |p| >= 1
    ensures SplitStep(NoParenState(p), ',') == NoParenState(p + [""])
  {
    var a := p[..|p| - 1];
    var c := p[|p| - 1];
    var q := p + [""];
    assert q[..|q| - 1] == p && q[|q| - 1] == "";
    assert a + [c] == p;
    StripAllTextAppend(a, c);
    assert SplitStep(NoParenState(p), ',') == SplitState(StripAllText(a) + [Strip(c)], "", 0);
  }

  /** Any other character (not a parenthesis) extends the current part. */
  lemma NoParenOther(p: seq<string>, x: char)
    requires |p| >= 1 && x != ',' && x != '(' && x != ')'
    ensures SplitStep(NoParenState(p), x) == NoParenState(p[..|p| - 1] + [p[|p| - 1] + [x]])
  {
    var q := p[..|p| - 1] + [p[|p| - 1] + [x]];
    assert q[..|q| - 1] == p[..|p| - 1];
  }

  function StripAllText(xs: seq<string>): (r: seq<string>)
    ensures |r| == |xs| && forall i :: 0 <= i < |xs| ==> r[i] == Strip(xs[i])
  {
    if |xs| == 0 then [] else [Strip(xs[0])] + StripAllText(xs[1..])
  }

  lemma StripAllTextAppend(xs: seq<string>, x: string)
    ensures StripAllText(xs + [x]) == StripAllText(xs) + [Strip(x)]
  {
  }

  /**
   * Without parentheses `_split_args` is the stripped comma split, minus a
   * final part with no characters at all.
   */
  lemma SplitArgsNoParens(s: string)
    requires '(' !in s && ')' !in s
    ensures var p := Split(s, ',');
            SplitArgs(s) == StripAllText(p[..|p| - 1]) + (if p[|p| - 1] == "" then [] else [Strip(p[|p| - 1])])
  {
    SplitScanNoParens(s);
  }

  /** Every scanned character ends up in an argument or the current text, none invented. */
  lemma {:induction false} SplitScanChars(s: string)
    ensures var st := SplitScan(s);
            (forall a, c :: a in st.args && c in a ==> c in s) && (forall c :: c in st.current ==> c in s)
  {
    if |s| > 0 {
      var init := s[..|s| - 1];
      SplitScanChars(init);
      assert forall c :: c in init ==> c in s;
      var st := SplitScan(init);
      if s[|s| - 1] == ',' && st.depth == 0 {
        forall c | c in Strip(st.current) ensures c in st.current {
          StripSubstring(st.current);
          var t := Strip(st.current);
          var k :| 0 <= k < |t| && t[k] == c;
          var off := |st.current| - |LStrip(st.current)|;
          assert t[k] == st.current[off + k];
        }
      }
    }
  }

  lemma StripSubstring(s: string)
    ensures |LStrip(s)| <= |s| && |Strip(s)| <= |LStrip(s)|
    ensures var off := |s| - |LStrip(s)|;
            Strip(s) == s[off..off + |Strip(s)|]
  {
    LStripShape(s);
    RStripShape(LStrip(s));
  }

  /** Arguments are stripped and made only of characters of the argument text. */
  lemma SplitArgsSpec(s: string)
    ensures forall a :: a in SplitArgs(s) ==> forall c :: c in a ==> c in s
    ensures forall a :: a in SplitArgs(s) ==> Strip(a) == a
  {
    SplitScanChars(s);
    SplitScanStripped(s);
    var st := SplitScan(s);
    if st.current != "" {
      StripIdempotent(st.current);
      StripKeepsChars(st.current);
      var args := st.args + [Strip(st.current)];
      assert SplitArgs(s) == args;
      forall a | a in args ensures (forall c :: c in a ==> c in s) && Strip(a) == a {
        if a != Strip(st.current) {
          assert a in st.args;
        }
      }
    }
  }

  /** Stripping only drops characters. */
  lemma StripKeepsChars(t: string)
    ensures forall c :: c in Strip(t) ==> c in t
  {
    StripSubstring(t);
    var r := Strip(t);
    var off := |t| - |LStrip(t)|;
    forall c | c in r ensures c in t {
      var k :| 0 <= k < |r| && r[k] == c;
      assert r[k] == t[off + k];
    }
  }

  lemma {:induction false} SplitScanStripped(s: string)
    ensures forall a :: a in SplitScan(s).args ==> Strip(a) == a
  {
    if |s| > 0 {
      SplitScanStripped(s[..|s| - 1]);
      StripIdempotent(SplitScan(s[..|s| - 1]).current);
    }
  }

  // ---------------------------------------------------------------------
  // Functions: _apply_func
  // ---------------------------------------------------------------------

  function Repeat(c: char, n: nat): (r: string)
    ensures |r| == n && forall i :: 0 <= i < n ==> r[i] == c
  {
    seq(n, _ => c)
  }

  /** `s.ljust(n, ch) if len(s) < n else s[:n]`. */
  function Pad(s: string, n: int, ch: char): string
  {
    if |s| < n then s + Repeat(ch, n - |s|) else PySlice(s, 0, n)
  }

  /** The text has the `to_num` numeral form: digits with at most one '.'. */
  predicate IsNumeral(x: string)
  {
    var t := RemoveFirstDot(x);
    |t| > 0 && AllDigits(t)
  }

  function RemoveFirstDot(x: string): string
  {
    if |x| == 0 then "" else if x[0] == '.' then x[1..] else [x[0]] + RemoveFirstDot(x[1..])
  }

  /** The number of characters after the first '.'; 0 when there is none. */
  function FracLength(x: string): nat
  {
    if |x| == 0 then 0 else if x[0] == '.' then |x| - 1 else FracLength(x[1..])
  }

  function Pow10(k: nat): (r: nat)
    ensures r > 0
  {
    if k == 0 then 1 else 10 * Pow10(k - 1)
  }

  /**
   * `to_num`: `float(x)` of a numeral, read here as the exact decimal it
   * spells (its digits without the dot, scaled down by the digits after
   * the dot), and 0 for anything else.
   */
  function ToNum(x: string): real
  {
    if IsNumeral(x) then (DigitsValue(RemoveFirstDot(x)) as real) / (Pow10(FracLength(x)) as real) else 0.0
  }

  /** `to_num(x) == 0`: not a numeral, or a numeral of zeros only. */
  predicate ToNumIsZero(x: string)
  {
    !IsNumeral(x) || forall i :: 0 <= i < |x| ==> x[i] == '0' || x[i] == '.'
  }

  /** `if2`: the first non-empty value, else the fallback. */
  function FirstNonEmpty(vals: seq<string>, fallback: string): string
  {
    if |vals| == 0 then fallback else if vals[0] != "" then vals[0] else FirstNonEmpty(vals[1..], fallback)
  }

  function Bit(b: bool): string { if b then "1" else "0" }

  /** `_apply_func`: unknown names and wrong argument counts give "". */
  function ApplyFunc(name: string, args: seq<string>, clock: Option<string>): Result<string>
  {
    var n := |args|;
    if name == "upper" && n == 1 then Ok(Upper(args[0]))
    else if name == "lower" && n == 1 then Ok(Lower(args[0]))
    else if name == "title" && n == 1 then Ok(Title(args[0]))
    else if name == "substr" && 2 <= n <= 3 then
      (match PyInt(args[1])
       case None => Err(ValueError)
       case Some(start) =>
         if n == 3 then
           match PyInt(args[2])
           case None => Err(ValueError)
           case Some(end) => Ok(PySlice(args[0], start, end))
         else Ok(PySlice(args[0], start, |args[0]|)))
    else if name == "left" && n == 2 then
      (match PyInt(args[1])
       case None => Err(ValueError)
       case Some(k) => Ok(PySlice(args[0], 0, k)))
    else if name == "right" && n == 2 then
      (match PyInt(args[1])
       case None => Err(ValueError)
       case Some(k) => Ok(PySlice(args[0], -k, |args[0]|)))
    else if name == "replace" && n == 3 then Ok(ReplaceAll(args[0], args[1], args[2]))
    else if name == "len" && n == 1 then Ok(NatToString(|args[0]|))
    else if name == "pad" && 2 <= n <= 3 then
      (match PyInt(args[1])
       case None => Err(ValueError)
       case Some(w) =>
         var fill := if n == 3 then args[2] else " ";
         if |fill| == 0 then Err(IndexError) else Ok(Pad(args[0], w, fill[0])))
    else if (name == "add" || name == "sub" || name == "mul") && n == 2 then Err(FloatResult)
    else if name == "div" && n == 2 then (if ToNum(args[1]) == 0.0 then Ok("0") else Err(FloatResult))
    else if name == "eq" && n == 2 then Ok(Bit(args[0] == args[1]))
    else if name == "lt" && n == 2 then Ok(Bit(ToNum(args[0]) < ToNum(args[1])))
    else if name == "gt" && n == 2 then Ok(Bit(ToNum(args[0]) > ToNum(args[1])))
    else if name == "and" then Ok(Bit(forall i :: 0 <= i < n ==> args[i] == "1"))
    else if name == "or" then Ok(Bit(exists i :: 0 <= i < n && args[i] == "1"))
    else if name == "not" && n == 1 then Ok(Bit(args[0] != "1"))
    else if name == "datetime" && n == 0 then
      (match clock
       case None => Err(NameError)
       case Some(now) => Ok(now))
    else if name == "year" && n == 1 then Ok(PySlice(args[0], 0, 4))
    else if name == "month" && n == 1 then Ok(PySlice(args[0], 5, 7))
    else if name == "day" && n == 1 then Ok(PySlice(args[0], 8, 10))
    else if name == "if" && n == 3 then Ok(if args[0] == "1" then args[1] else args[2])
    else if name == "if2" && n >= 2 then Ok(FirstNonEmpty(args[..n - 1], args[n - 1]))
    else Ok("")
  }

  const FunctionNames: set<string> := {"upper", "lower", "title", "substr", "left", "right", "replace", "len", "pad",
                                       "add", "sub", "mul", "div", "eq", "lt", "gt", "and", "or", "not", "datetime",
                                       "year", "month", "day", "if", "if2"}

  /** An unknown function name gives "" whatever its arguments. */
  lemma UnknownFunctionEmpty(name: string, args: seq<string>, clock: Option<string>)
    requires name !in FunctionNames
    ensures ApplyFunc(name, args, clock) == Ok("")
  {
  }

  /**
   * The logic functions give "1" or "0"; only "1" counts as true, `and()`
   * of nothing is "1" and `or()` of nothing is "0".
   */
  lemma LogicFunctions(args: seq<string>, clock: Option<string>)
    ensures ApplyFunc("and", args, clock) == Ok(if forall i :: 0 <= i < |args| ==> args[i] == "1" then "1" else "0")
    ensures ApplyFunc("or", args, clock) == Ok(if exists i :: 0 <= i < |args| && args[i] == "1" then "1" else "0")
    ensures ApplyFunc("and", [], clock) == Ok("1") && ApplyFunc("or", [], clock) == Ok("0")
    ensures |args| == 1 ==> ApplyFunc("not", args, clock) == Ok(if args[0] == "1" then "0" else "1")
    ensures |args| == 2 ==> ApplyFunc("eq", args, clock) == Ok(if args[0] == args[1] then "1" else "0")
    ensures |args| == 2 ==> ApplyFunc("lt", args, clock) in {Ok("1"), Ok("0")} && ApplyFunc("gt", args, clock) in {Ok("1"), Ok("0")}
    ensures |args| == 2 ==> ApplyFunc("gt", args, clock) == ApplyFunc("lt", [args[1], args[0]], clock)
  {
    AndFunc(args, clock);
    AndFunc([], clock);
    OrFunc(args, clock);
    OrFunc([], clock);
    if |args| == 1 {
      NotFunc(args, clock);
    }
    if |args| == 2 {
      EqFunc(args, clock);
      CompareFuncs(args, clock);
    }
  }

  lemma AndFunc(args: seq<string>, clock: Option<string>)
    ensures ApplyFunc("and", args, clock) == Ok(if forall i :: 0 <= i < |args| ==> args[i] == "1" then "1" else "0")
  {
  }

  lemma OrFunc(args: seq<string>, clock: Option<string>)
    ensures ApplyFunc("or", args, clock) == Ok(if exists i :: 0 <= i < |args| && args[i] == "1" then "1" else "0")
  {
  }

  lemma NotFunc(args: seq<string>, clock: Option<string>)
    requires |args| == 1
    ensures ApplyFunc("not", args, clock) == Ok(if args[0] == "1" then "0" else "1")
  {
  }

  lemma CompareFuncs(args: seq<string>, clock: Option<string>)
    requires |args| == 2
    ensures ApplyFunc("lt", args, clock) == Ok(if ToNum(args[0]) < ToNum(args[1]) then "1" else "0")
    ensures ApplyFunc("gt", args, clock) == Ok(if ToNum(args[0]) > ToNum(args[1]) then "1" else "0")
    ensures ApplyFunc("lt", [args[1], args[0]], clock) == Ok(if ToNum(args[1]) < ToNum(args[0]) then "1" else "0")
  {
  }

  lemma EqFunc(args: seq<string>, clock: Option<string>)
    requires |args| == 2
    ensures ApplyFunc("eq", args, clock) == Ok(if args[0] == args[1] then "1" else "0")
  {
  }

  lemma {:induction false} FirstNonEmptySpec(vals: seq<string>, fallback: string)
    ensures var r := FirstNonEmpty(vals, fallback);
            (r == fallback && forall i :: 0 <= i < |vals| ==> vals[i] == "") ||
            (exists i :: 0 <= i < |vals| && r == vals[i] && r != "" && forall j :: 0 <= j < i ==> vals[j] == "")
  {
    if |vals| > 0 && vals[0] == "" {
      FirstNonEmptySpec(vals[1..], fallback);
      var r := FirstNonEmpty(vals, fallback);
      if exists i :: 0 <= i < |vals[1..]| && r == vals[1..][i] && r != "" && forall j :: 0 <= j < i ==> vals[1..][j] == "" {
        var i :| 0 <= i < |vals[1..]| && r == vals[1..][i] && r != "" && forall j :: 0 <= j < i ==> vals[1..][j] == "";
        assert r == vals[i + 1];
        forall j | 0 <= j < i + 1 ensures vals[j] == "" {
          if j > 0 {
            assert vals[j] == vals[1..][j - 1];
          }
        }
      } else {
        forall i | 0 <= i < |vals| ensures vals[i] == "" {
          if i > 0 {
            assert vals[i] == vals[1..][i - 1];
          }
        }
      }
    } else if |vals| > 0 {
      assert FirstNonEmpty(vals, fallback) == vals[0];
    }
  }

  /**
   * `$if` picks its second argument exactly when the first is "1"; `$if2`
   * gives the first non-empty argument before the last, else the last.
   */
  lemma ConditionalFunctions(args: seq<string>, clock: Option<string>)
    ensures |args| == 3 ==> ApplyFunc("if", args, clock) == Ok(if args[0] == "1" then args[1] else args[2])
    ensures |args| >= 2 ==>
              var r := ApplyFunc("if2", args, clock).value;
              ApplyFunc("if2", args, clock).Ok? &&
              ((r == args[|args| - 1] && forall i :: 0 <= i < |args| - 1 ==> args[i] == "") ||
               (exists i :: 0 <= i < |args| - 1 && r == args[i] && r != "" && forall j :: 0 <= j < i ==> args[j] == ""))
  {
    if |args| == 3 {
      IfFunc(args, clock);
    }
    if |args| >= 2 {
      If2Func(args, clock);
      FirstNonEmptySpec(args[..|args| - 1], args[|args| - 1]);
    }
  }

  lemma IfFunc(args: seq<string>, clock: Option<string>)
    requires |args| == 3
    ensures ApplyFunc("if", args, clock) == Ok(if args[0] == "1" then args[1] else args[2])
  {
  }

  lemma If2Func(args: seq<string>, clock: Option<string>)
    requires |args| >= 2
    ensures ApplyFunc("if2", args, clock) == Ok(FirstNonEmpty(args[..|args| - 1], args[|args| - 1]))
  {
  }

  /** `$right(s, 0)` is the whole text, because `s[-0:]` is `s[0:]`. */
  lemma RightOfZeroIsWhole(s: string, clock: Option<string>)
    ensures ApplyFunc("right", [s, "0"], clock) == Ok(s)
  {
    PyIntOfNat(0);
    assert NatToString(0) == "0";
    assert s[0..|s|] == s;
  }

  lemma PyIntOfNat(n: nat)
    ensures PyInt(NatToString(n)) == Some(n)
  {
    NatToStringDigits(n);
    var t := NatToString(n);
    StripNoEnds(t);
    WithoutUnderscoresOfDigits(t);
    assert UnderscoredDigits(t);
  }

  /** For 0 <= k <= |s|, `$left(s, k)` is the first k characters and `$right(s, k)` the last k (k > 0). */
  lemma LeftRight(s: string, k: nat, clock: Option<string>)
    requires k <= |s|
    ensures ApplyFunc("left", [s, NatToString(k)], clock) == Ok(s[..k])
    ensures k > 0 ==> ApplyFunc("right", [s, NatToString(k)], clock) == Ok(s[|s| - k..])
  {
    PyIntOfNat(k);
    LeftFunc(s, k, clock);
    RightFunc(s, k, clock);
  }

  lemma LeftFunc(s: string, k: nat, clock: Option<string>)
    requires k <= |s| && PyInt(NatToString(k)) == Some(k)
    ensures ApplyFunc("left", [s, NatToString(k)], clock) == Ok(s[..k])
  {
    assert PySlice(s, 0, k) == s[..k];
  }

  lemma RightFunc(s: string, k: nat, clock: Option<string>)
    requires k <= |s| && PyInt(NatToString(k)) == Some(k)
    ensures k > 0 ==> ApplyFunc("right", [s, NatToString(k)], clock) == Ok(s[|s| - k..])
  {
    if k > 0 {
      var negK: int := 0 - k;
      assert PySlice(s, negK, |s|) == s[|s| - k..];
    }
  }

  /**
   * `$pad(s, n, ch)` with n >= 0 has exactly n characters: s followed by the
   * first character of ch when s is shorter, the first n characters of s
   * otherwise; an empty ch raises IndexError.
   */
  lemma PadSpec(s: string, n: nat, fill: string, clock: Option<string>)
    ensures fill == "" ==> ApplyFunc("pad", [s, NatToString(n), fill], clock) == Err(IndexError)
    ensures fill != "" ==>
              var r := ApplyFunc("pad", [s, NatToString(n), fill], clock);
              r.Ok? && |r.value| == n &&
              (|s| < n ==> r.value[..|s|] == s && forall i :: |s| <= i < n ==> r.value[i] == fill[0]) &&
              (|s| >= n ==> r.value == s[..n])
  {
    PyIntOfNat(n);
  }

  /** `$year`, `$month` and `$day` of a formatted date give its three fields. */
  lemma DateFunctions(d: Date, clock: Option<string>)
    requires d.Valid()
    ensures ApplyFunc("year", [IsoFormat(d)], clock) == Ok(PadNat(d.year, 4))
    ensures ApplyFunc("month", [IsoFormat(d)], clock) == Ok(PadNat(d.month, 2))
    ensures ApplyFunc("day", [IsoFormat(d)], clock) == Ok(PadNat(d.day, 2))
  {
    IsoPieces(d);
    var s := IsoFormat(d);
    assert s[..4] == s[0..4];
    YearFunc(s, clock);
    MonthFunc(s, clock);
    DayFunc(s, clock);
  }

  lemma YearFunc(s: string, clock: Option<string>)
    requires |s| >= 10
    ensures ApplyFunc("year", [s], clock) == Ok(s[..4])
  {
  }

  lemma MonthFunc(s: string, clock: Option<string>)
    requires |s| >= 10
    ensures ApplyFunc("month", [s], clock) == Ok(s[5..7])
  {
  }

  lemma DayFunc(s: string, clock: Option<string>)
    requires |s| >= 10
    ensures ApplyFunc("day", [s], clock) == Ok(s[8..10])
  {
  }

  /** `$div(x, y)` is "0" exactly when `to_num(y)` is zero, e.g. for a non-numeric y; otherwise a float. */
  lemma DivByZeroIsZero(x: string, y: string, clock: Option<string>)
    ensures ToNumIsZero(y) ==> ApplyFunc("div", [x, y], clock) == Ok("0")
    ensures !ToNumIsZero(y) ==> ApplyFunc("div", [x, y], clock) == Err(FloatResult)
  {
    ToNumZeroIff(y);
  }

  /** A digit string is worth its decimal value. */
  lemma {:induction false} ToNumDigits(s: string)
    requires |s| > 0 && AllDigits(s)
    ensures ToNum(s) == DigitsValue(s) as real
  {
    assert '.' !in s by {
      forall k | 0 <= k < |s| ensures s[k] != '.' {
        assert IsDigit(s[k]);
      }
    }
    NoDotRemoved(s);
    assert IsNumeral(s);
    assert Pow10(0) == 1;
  }

  /** A decimal `i.f` is worth its whole part plus its fraction, either part possibly empty. */
  lemma {:induction false} ToNumDecimal(i: string, f: string)
    requires AllDigits(i) && AllDigits(f) && |i| + |f| > 0
    ensures ToNum(i + "." + f) == DigitsValue(i) as real + (DigitsValue(f) as real) / (Pow10(|f|) as real)
  {
    var x := i + "." + f;
    assert '.' !in i by {
      forall k | 0 <= k < |i| ensures i[k] != '.' {
        assert IsDigit(i[k]);
      }
    }
    DotRemoved(i, f);
    DigitsAppend(i, f);
    assert IsNumeral(x);
    var n, v, p := DigitsValue(i), DigitsValue(f), Pow10(|f|);
    assert ToNum(x) == ((n * p + v) as real) / (p as real);
    ScaledSum(n, v, p);
  }

  lemma ScaledSum(n: nat, v: nat, p: nat)
    requires p > 0
    ensures ((n * p + v) as real) / (p as real) == n as real + (v as real) / (p as real)
  {
    assert (n * p + v) as real == (n as real) * (p as real) + v as real;
  }

  /** `to_num(x)` is zero exactly when x is no numeral or a numeral of zeros only. */
  lemma ToNumZeroIff(x: string)
    ensures ToNum(x) == 0.0 <==> ToNumIsZero(x)
  {
    if IsNumeral(x) {
      var t := RemoveFirstDot(x);
      RemoveFirstDotChars(x);
      DigitsZeroIff(t);
      if DigitsValue(t) == 0 {
        forall k | 0 <= k < |x| ensures x[k] == '0' || x[k] == '.' {
          if x[k] != '.' {
            assert x[k] in t;
          }
        }
      } else {
        var j :| 0 <= j < |t| && t[j] != '0';
        assert t[j] in x;
      }
    }
  }

  /** `$lt` and `$gt` of two digit strings compare their decimal values. */
  lemma DigitComparisons(a: string, b: string, clock: Option<string>)
    requires |a| > 0 && AllDigits(a) && |b| > 0 && AllDigits(b)
    ensures ApplyFunc("lt", [a, b], clock) == Ok(if DigitsValue(a) < DigitsValue(b) then "1" else "0")
    ensures ApplyFunc("gt", [a, b], clock) == Ok(if DigitsValue(a) > DigitsValue(b) then "1" else "0")
  {
    ToNumDigits(a);
    ToNumDigits(b);
  }

  /** Text that is no numeral counts as 0 in a comparison. */
  lemma NonNumeralIsZero(a: string, b: string, clock: Option<string>)
    requires !IsNumeral(a)
    ensures ApplyFunc("lt", [a, b], clock) == Ok(if ToNum(b) > 0.0 then "1" else "0")
    ensures ApplyFunc("gt", [b, a], clock) == ApplyFunc("lt", [a, b], clock)
  {
  }

  lemma {:induction false} NoDotRemoved(x: string)
    requires '.' !in x
    ensures RemoveFirstDot(x) == x && FracLength(x) == 0
  {
    if |x| > 0 {
      assert x[0] != '.' && '.' !in x[1..];
      NoDotRemoved(x[1..]);
      assert x == [x[0]] + x[1..];
    }
  }

  lemma {:induction false} DotRemoved(i: string, f: string)
    requires '.' !in i
    ensures RemoveFirstDot(i + "." + f) == i + f && FracLength(i + "." + f) == |f|
  {
    if |i| == 0 {
      assert i + "." + f == ['.'] + f;
    } else {
      assert (i + "." + f)[1..] == i[1..] + "." + f;
      assert '.' !in i[1..];
      DotRemoved(i[1..], f);
      assert i + f == [i[0]] + (i[1..] + f);
    }
  }

  /** The value of digits followed by more digits. */
  lemma {:induction false} DigitsAppend(a: string, b: string)
    requires AllDigits(a) && AllDigits(b)
    ensures AllDigits(a + b) && DigitsValue(a + b) == DigitsValue(a) * Pow10(|b|) + DigitsValue(b)
    decreases |b|
  {
    if |b| == 0 {
      assert a + b == a;
    } else {
      var b' := b[..|b| - 1];
      assert (a + b)[..|a + b| - 1] == a + b';
      DigitsAppend(a, b');
      calc {
        DigitsValue(a + b);
        DigitsValue(a + b') * 10 + DigitValue(b[|b| - 1]);
        (DigitsValue(a) * Pow10(|b'|) + DigitsValue(b')) * 10 + DigitValue(b[|b| - 1]);
        DigitsValue(a) * (Pow10(|b'|) * 10) + (DigitsValue(b') * 10 + DigitValue(b[|b| - 1]));
      }
    }
  }

  /** A digit string is worth 0 exactly when all its digits are '0'. */
  lemma {:induction false} DigitsZeroIff(t: string)
    requires AllDigits(t)
    ensures DigitsValue(t) == 0 <==> forall k :: 0 <= k < |t| ==> t[k] == '0'
  {
    if |t| > 0 {
      DigitsZeroIff(t[..|t| - 1]);
      assert forall k :: 0 <= k < |t| - 1 ==> t[..|t| - 1][k] == t[k];
    }
  }

  /** Removing the first dot keeps the other characters and adds none. */
  lemma {:induction false} RemoveFirstDotChars(x: string)
    ensures forall c :: c in RemoveFirstDot(x) ==> c in x
    ensures forall c :: c in x && c != '.' ==> c in RemoveFirstDot(x)
  {
    if |x| > 0 {
      RemoveFirstDotChars(x[1..]);
      assert x == [x[0]] + x[1..];
    }
  }

  // ---------------------------------------------------------------------
  // Call pass: FUNC_RE = \$(\w+)\((.*?)\)
  // ---------------------------------------------------------------------

  /** The first ')' at or after `j`, unless a newline (which '.' does not match) comes first. */
  function CloseParen(s: string, j: nat): (r: Option<nat>)
    requires j <= |s|
    ensures r.Some? ==> j <= r.value < |s| && s[r.value] == ')'
    decreases |s| - j
  {
    if j == |s| || s[j] == '\n' then None else if s[j] == ')' then Some(j) else CloseParen(s, j + 1)
  }

  /** The closing ')' is the first one, and no newline comes before it. */
  lemma {:induction false} CloseParenFirst(s: string, j: nat)
    requires j <= |s|
    ensures CloseParen(s, j).Some? ==> forall k :: j <= k < CloseParen(s, j).value ==> s[k] != ')' && s[k] != '\n'
    decreases |s| - j
  {
    if j < |s| && s[j] != '\n' && s[j] != ')' {
      CloseParenFirst(s, j + 1);
    }
  }

  /** The first ')' after `j`, with no newline before it, closes the call. */
  lemma {:induction false} CloseParenAt(s: string, j: nat, k: nat)
    requires j <= k < |s| && s[k] == ')' && ')' !in s[j..k] && '\n' !in s[j..k]
    ensures CloseParen(s, j) == Some(k)
    decreases k - j
  {
    if j < k {
      assert s[j] == s[j..k][0];
      assert s[j + 1..k] == s[j..k][1..];
      CloseParenAt(s, j + 1, k);
    }
  }

  /** A call matched at some index: the name, the argument text and the index after ')'. */
  datatype Call = Call(name: string, argText: string, end: nat)

  function CallAt(s: string, i: nat): (r: Option<Call>)
    requires i <= |s|
    ensures r.Some? ==> i < r.value.end <= |s| && |r.value.name| > 0 && s[r.value.end - 1] == ')'
  {
    if i < |s| && s[i] == '$' then
      var e := NameRunEnd(s, i + 1);
      if e > i + 1 && e < |s| && s[e] == '(' then
        match CloseParen(s, e + 1)
        case Some(k) =>
          Some(Call(s[i + 1..e], s[e + 1..k], k + 1))
        case None => None
      else None
    else None
  }

  /**
   * A call's argument text stops lazily at the first ')': it holds no ')'
   * and no newline, so a nested call can never be written out literally.
   */
  lemma CallArgText(s: string, i: nat)
    requires i <= |s|
    ensures CallAt(s, i).Some? ==> ')' !in CallAt(s, i).value.argText && '\n' !in CallAt(s, i).value.argText
  {
    if CallAt(s, i).Some? {
      var e := NameRunEnd(s, i + 1);
      CloseParenFirst(s, e + 1);
      var k := CloseParen(s, e + 1).value;
      assert CallAt(s, i).value.argText == s[e + 1..k];
    }
  }

  /** `eval`: at most 20 passes, stopping at the first pass that changes nothing. */
  function Eval(ev: Evaluator, text: string, fuel: nat, clock: Option<string>): Result<string>
    decreases fuel, 3, 0
  {
    if fuel == 0 then Err(RecursionLimit) else Passes(ev, text, 20, fuel, clock)
  }

  function Passes(ev: Evaluator, text: string, n: nat, fuel: nat, clock: Option<string>): Result<string>
    requires fuel > 0
    decreases fuel, 2, n
  {
    if n == 0 then Ok(text)
    else match EvalOnce(ev, text, fuel, clock)
      case Err(f) => Err(f)
      case Ok(next) => if next == text then Ok(text) else Passes(ev, next, n - 1, fuel, clock)
  }

  /** `_eval_once`: every token first, then every call. */
  function EvalOnce(ev: Evaluator, text: string, fuel: nat, clock: Option<string>): Result<string>
    requires fuel > 0
    decreases fuel, 1, 0
  {
    match TokenSub(ev.metadata, text, 0)
    case Err(f) => Err(f)
    case Ok(t) => FuncSub(ev, t, 0, fuel, clock)
  }

  /** `FUNC_RE.sub(func_repl, s[i..])`: the arguments are evaluated one level deeper. */
  function FuncSub(ev: Evaluator, s: string, i: nat, fuel: nat, clock: Option<string>): Result<string>
    requires i <= |s| && fuel > 0
    decreases fuel, 0, |s| - i
  {
    if i == |s| then Ok("")
    else match CallAt(s, i)
      case Some(c) => Then(CallValue(ev, c, fuel, clock), FuncSub(ev, s, c.end, fuel, clock))
      case None => Then(Ok([s[i]]), FuncSub(ev, s, i + 1, fuel, clock))
  }

  /** The value of one call: its arguments evaluated one level deeper, then the function. */
  function CallValue(ev: Evaluator, c: Call, fuel: nat, clock: Option<string>): Result<string>
    requires fuel > 0
    decreases fuel, 0, 0
  {
    match EvalArgs(ev, SplitArgs(c.argText), fuel - 1, clock)
    case Err(f) => Err(f)
    case Ok(args) => ApplyFunc(c.name, args, clock)
  }

  function EvalArgs(ev: Evaluator, args: seq<string>, fuel: nat, clock: Option<string>): Result<seq<string>>
    decreases fuel, 4, |args|
  {
    if |args| == 0 then Ok([])
    else match Eval(ev, args[0], fuel, clock)
      case Err(f) => Err(f)
      case Ok(v) =>
        match EvalArgs(ev, args[1..], fuel, clock)
        case Err(f) => Err(f)
        case Ok(rest) => Ok([v] + rest)
  }

  /** `eval` as the program runs it: a bounded loop rebinding the text. */
  method EvalLoop(ev: Evaluator, text: string, fuel: nat, clock: Option<string>) returns (r: Result<string>)
    requires fuel > 0
    ensures r == Eval(ev, text, fuel, clock)
  {
    var cur := text;
    var k := 0;
    while k < 20
      invariant 0 <= k <= 20
      invariant Passes(ev, cur, 20 - k, fuel, clock) == Passes(ev, text, 20, fuel, clock)
    {
      var next := EvalOnce(ev, cur, fuel, clock);
      if next.Err? {
        return Err(next.failure);
      }
      if next.value == cur {
        return Ok(cur);
      }
      cur := next.value;
      k := k + 1;
    }
    return Ok(cur);
  }

  /** Applying `k` passes in a row. */
  function ApplyPasses(ev: Evaluator, text: string, k: nat, fuel: nat, clock: Option<string>): Result<string>
    requires fuel > 0
    decreases k
  {
    if k == 0 then Ok(text)
    else match EvalOnce(ev, text, fuel, clock)
      case Err(f) => Err(f)
      case Ok(next) => ApplyPasses(ev, next, k - 1, fuel, clock)
  }

  /**
   * A successful `eval` result is reached by some k <= n passes and is a
   * fixed point of one more pass unless all n passes were used.
   */
  lemma {:induction false} PassesStop(ev: Evaluator, text: string, n: nat, fuel: nat, clock: Option<string>)
    requires fuel > 0
    ensures Passes(ev, text, n, fuel, clock).Ok? ==>
              var r := Passes(ev, text, n, fuel, clock).value;
              exists k :: 0 <= k <= n && ApplyPasses(ev, text, k, fuel, clock) == Ok(r) &&
                          (k < n ==> EvalOnce(ev, r, fuel, clock) == Ok(r))
    decreases n
  {
    if n > 0 && Passes(ev, text, n, fuel, clock).Ok? {
      var r := Passes(ev, text, n, fuel, clock).value;
      var next := EvalOnce(ev, text, fuel, clock).value;
      if next == text {
        assert ApplyPasses(ev, text, 0, fuel, clock) == Ok(r);
      } else {
        PassesStop(ev, next, n - 1, fuel, clock);
        var k :| 0 <= k <= n - 1 && ApplyPasses(ev, next, k, fuel, clock) == Ok(r) &&
                 (k < n - 1 ==> EvalOnce(ev, r, fuel, clock) == Ok(r));
        assert ApplyPasses(ev, text, k + 1, fuel, clock) == Ok(r);
      }
    } else if n == 0 {
      assert ApplyPasses(ev, text, 0, fuel, clock) == Passes(ev, text, n, fuel, clock);
    }
  }

  /** A successful `eval` is at most 20 passes and stops at a fixed point unless it used all 20. */
  lemma EvalStops(ev: Evaluator, text: string, fuel: nat, clock: Option<string>)
    requires fuel > 0
    ensures Eval(ev, text, fuel, clock).Ok? ==>
              var r := Eval(ev, text, fuel, clock).value;
              exists k :: 0 <= k <= 20 && ApplyPasses(ev, text, k, fuel, clock) == Ok(r) &&
                          (k < 20 ==> EvalOnce(ev, r, fuel, clock) == Ok(r))
  {
    PassesStop(ev, text, 20, fuel, clock);
  }

  /** Text without '$' holds no call and passes through unchanged. */
  lemma FuncSubNoDollar(ev: Evaluator, s: string, i: nat, fuel: nat, clock: Option<string>)
    requires i <= |s| && fuel > 0 && '$' !in s
    ensures FuncSub(ev, s, i, fuel, clock) == Ok(s[i..])
  {
    assert s[i..|s|] == s[i..];
    FuncSubPlain(ev, s, i, |s|, fuel, clock);
    assert s[i..] + "" == s[i..];
  }

  /** A stretch without '$' is copied as it is in front of the rest of the pass. */
  lemma {:induction false} FuncSubPlain(ev: Evaluator, s: string, i: nat, j: nat, fuel: nat, clock: Option<string>)
    requires i <= j <= |s| && fuel > 0
    requires '$' !in s[i..j]
    ensures FuncSub(ev, s, i, fuel, clock) == Then(Ok(s[i..j]), FuncSub(ev, s, j, fuel, clock))
    decreases j - i
  {
    if i < j {
      assert s[i..j] == [s[i]] + s[i + 1..j];
      assert CallAt(s, i).None?;
      FuncSubPlain(ev, s, i + 1, j, fuel, clock);
      ThenOk([s[i]], s[i + 1..j], FuncSub(ev, s, j, fuel, clock));
    } else {
      assert s[i..j] == "";
      ThenOk("", "", FuncSub(ev, s, j, fuel, clock));
    }
  }

  /** Text with neither '%' nor '$' is its own value. */
  lemma PlainTextIsFixed(ev: Evaluator, text: string, fuel: nat, clock: Option<string>)
    requires fuel > 0 && '%' !in text && '$' !in text
    ensures EvalOnce(ev, text, fuel, clock) == Ok(text)
    ensures Eval(ev, text, fuel, clock) == Ok(text)
  {
    TokenSubNoPercent(ev.metadata, text, 0);
    FuncSubNoDollar(ev, text, 0, fuel, clock);
    assert text[0..] == text;
  }

  /**
   * The argument text of a call stops at the first ')', so an argument can
   * hold a call only through a token's value: with no '%' in the argument
   * text every argument evaluates to itself.
   */
  lemma {:induction false} LiteralArguments(ev: Evaluator, argText: string, fuel: nat, clock: Option<string>)
    requires fuel > 0 && ')' !in argText && '%' !in argText
    ensures EvalArgs(ev, SplitArgs(argText), fuel, clock) == Ok(SplitArgs(argText))
  {
    SplitArgsSpec(argText);
    LiteralArgsEach(ev, SplitArgs(argText), fuel, clock);
  }

  lemma {:induction false} LiteralArgsEach(ev: Evaluator, args: seq<string>, fuel: nat, clock: Option<string>)
    requires fuel > 0
    requires forall a :: a in args ==> ')' !in a && '%' !in a
    ensures EvalArgs(ev, args, fuel, clock) == Ok(args)
  {
    if |args| > 0 {
      assert args[0] in args;
      NoCloseIsFixed(ev, args[0], fuel, clock);
      LiteralArgsEach(ev, args[1..], fuel, clock);
      assert [args[0]] + args[1..] == args;
    }
  }

  lemma CallNeedsClose(s: string, i: nat)
    requires i <= |s|
    ensures CallAt(s, i).Some? ==> ')' in s
  {
    if CallAt(s, i).Some? {
      assert s[CallAt(s, i).value.end - 1] in s;
    }
  }

  /** Without ')' no call can match, so token-free text is its own value. */
  lemma NoCloseIsFixed(ev: Evaluator, text: string, fuel: nat, clock: Option<string>)
    requires fuel > 0 && '%' !in text && ')' !in text
    ensures Eval(ev, text, fuel, clock) == Ok(text)
  {
    TokenSubNoPercent(ev.metadata, text, 0);
    FuncSubNoClose(ev, text, 0, fuel, clock);
    assert text[0..] == text;
    assert EvalOnce(ev, text, fuel, clock) == Ok(text);
  }

  lemma {:induction false} FuncSubNoClose(ev: Evaluator, s: string, i: nat, fuel: nat, clock: Option<string>)
    requires i <= |s| && fuel > 0 && ')' !in s
    ensures FuncSub(ev, s, i, fuel, clock) == Ok(s[i..])
    decreases |s| - i
  {
    if i < |s| {
      CallNeedsClose(s, i);
      FuncSubNoClose(ev, s, i + 1, fuel, clock);
      assert s[i..] == [s[i]] + s[i + 1..];
    } else {
      assert s[i..] == "";
    }
  }
}

/**
 * The scheme editor's live preview (gui/scheme_editor.py, `_refresh_preview`
 * and `_save_schemes`): the folder scheme is evaluated first, its result is
 * offered to the saving scheme as `%foldername%`, and the two results are
 * joined into one path.
 */
module SchemePreview {
  import opened Text
  import opened SchemeLang

  /** `.replace("\\", "/").rstrip("/")`. */
  function SlashPath(s: string): string
  {
    RStripChars(ReplaceAll(s, "\\", "/"), {'/'})
  }

  /** A cleaned path holds no backslash, does not end in '/', and is cleaned again to itself. */
  lemma SlashPathSpec(s: string)
    ensures '\\' !in SlashPath(s)
    ensures |SlashPath(s)| == 0 || SlashPath(s)[|SlashPath(s)| - 1] != '/'
    ensures SlashPath(SlashPath(s)) == SlashPath(s)
  {
    var r := ReplaceAll(s, "\\", "/");
    ReplaceAllOneChar(s, '\\', "/");
    ReplaceCharSpec(s, '\\', '/');
    RStripCharsShape(r, {'/'});
    var t := SlashPath(s);
    assert forall c :: c in t ==> c in r;
    CleanPathFixed(t);
  }

  /** A path with no backslash and no trailing '/' is left as it is. */
  lemma CleanPathFixed(t: string)
    requires '\\' !in t && (|t| == 0 || t[|t| - 1] != '/')
    ensures SlashPath(t) == t
  {
    ReplaceAllOneChar(t, '\\', "/");
    ReplaceCharSpec(t, '\\', '/');
  }

  /** An empty saving result or "(root)" in any case means the folder sits at the top. */
  predicate IsRoot(savingEval: string)
  {
    savingEval == "" || Lower(savingEval) == "(root)"
  }

  /** The preview path from the two cleaned results (the pathlib join written as "/"). */
  function JoinPreview(savingEval: string, folderEval: string): string
  {
    if IsRoot(savingEval) then folderEval else SlashPath(savingEval + "/" + folderEval)
  }

  /**
   * With cleaned inputs, a root saving result gives the folder result alone,
   * an empty folder result the saving result alone, and otherwise the two
   * joined by one "/".
   */
  lemma JoinPreviewSpec(savingEval: string, folderEval: string)
    requires SlashPath(savingEval) == savingEval && SlashPath(folderEval) == folderEval
    ensures JoinPreview(savingEval, folderEval) ==
              if IsRoot(savingEval) then folderEval
              else if folderEval == "" then savingEval
              else savingEval + "/" + folderEval
  {
    SlashPathSpec(savingEval);
    SlashPathSpec(folderEval);
    if !IsRoot(savingEval) {
      var j := savingEval + "/" + folderEval;
      if folderEval == "" {
        assert j == savingEval + "/";
        ReplaceAllOneChar(j, '\\', "/");
        ReplaceCharSpec(j, '\\', '/');
        assert j[..|j| - 1] == savingEval;
        assert RStripChars(savingEval, {'/'}) == savingEval;
      } else {
        assert j[|j| - 1] == folderEval[|folderEval| - 1];
        assert '\\' !in j by {
          forall k | 0 <= k < |j| ensures j[k] != '\\' {
            if k < |savingEval| {
              assert j[k] == savingEval[k];
            } else if k > |savingEval| {
              assert j[k] == folderEval[k - |savingEval| - 1];
            }
          }
        }
        CleanPathFixed(j);
      }
    }
  }

  /** The folder result stored under "foldername" is what `%foldername%` reads back. */
  lemma FolderNameToken(md: Metadata, folderEval: string)
    requires NewEvaluator(md["foldername" := Str(folderEval)]).Ok?
    ensures TokenValue(NewEvaluator(md["foldername" := Str(folderEval)]).value.metadata, "foldername") == Ok(folderEval)
  {
    var md2 := md["foldername" := Str(folderEval)];
    NewEvaluatorSpec(md2);
    assert ClassifyToken("foldername") == Generic by {
      assert IndexedNumber("foldername", "format").None?;
      assert IndexedNumber("foldername", "additional").None?;
      assert IndexedNumber("foldername", "source").None?;
    }
  }

  /** `_refresh_preview` / `_save_schemes` on the stripped editor texts. */
  function Preview(md: Metadata, saving: string, folder: string, fuel: nat, clock: Option<string>): Result<string>
  {
    match NewEvaluator(md)
    case Err(f) => Err(f)
    case Ok(ev) =>
      match Eval(ev, Strip(folder), fuel, clock)
      case Err(f) => Err(f)
      case Ok(f) =>
        var folderEval := SlashPath(f);
        match NewEvaluator(md["foldername" := Str(folderEval)])
        case Err(g) => Err(g)
        case Ok(ev2) =>
          match Eval(ev2, Strip(saving), fuel, clock)
          case Err(g) => Err(g)
          case Ok(s) => Ok(JoinPreview(SlashPath(s), folderEval))
  }

  /**
   * The saving scheme sees the cleaned folder result as `%foldername%`, and
   * the preview is that result alone under a root saving result, else the
   * cleaned saving result joined to it.
   */
  lemma PreviewSpec(md: Metadata, saving: string, folder: string, fuel: nat, clock: Option<string>)
    requires Preview(md, saving, folder, fuel, clock).Ok?
    ensures var ev := NewEvaluator(md).value;
            var folderEval := SlashPath(Eval(ev, Strip(folder), fuel, clock).value);
            var ev2 := NewEvaluator(md["foldername" := Str(folderEval)]).value;
            var savingEval := SlashPath(Eval(ev2, Strip(saving), fuel, clock).value);
            TokenValue(ev2.metadata, "foldername") == Ok(folderEval) &&
            Preview(md, saving, folder, fuel, clock).value ==
              if IsRoot(savingEval) then folderEval
              else if folderEval == "" then savingEval
              else savingEval + "/" + folderEval
  {
    var ev := NewEvaluator(md).value;
    var folderEval := SlashPath(Eval(ev, Strip(folder), fuel, clock).value);
    var md2 := md["foldername" := Str(folderEval)];
    NewEvaluatorSpec(md2);
    var ev2 := NewEvaluator(md2).value;
    var savingEval := SlashPath(Eval(ev2, Strip(saving), fuel, clock).value);
    FolderNameToken(md, folderEval);
    assert Preview(md, saving, folder, fuel, clock).value == JoinPreview(savingEval, folderEval);
    SlashPathSpec(Eval(ev, Strip(folder), fuel, clock).value);
    SlashPathSpec(Eval(ev2, Strip(saving), fuel, clock).value);
    JoinPreviewSpec(savingEval, folderEval);
  }

  /** Every preview path is free of backslashes and has no trailing '/'. */
  lemma PreviewClean(md: Metadata, saving: string, folder: string, fuel: nat, clock: Option<string>)
    requires Preview(md, saving, folder, fuel, clock).Ok?
    ensures var p := Preview(md, saving, folder, fuel, clock).value;
            '\\' !in p && (|p| == 0 || p[|p| - 1] != '/')
  {
    var ev := NewEvaluator(md).value;
    var f := Eval(ev, Strip(folder), fuel, clock).value;
    var ev2 := NewEvaluator(md["foldername" := Str(SlashPath(f))]).value;
    var s := Eval(ev2, Strip(saving), fuel, clock).value;
    SlashPathSpec(f);
    SlashPathSpec(SlashPath(s) + "/" + SlashPath(f));
  }
}

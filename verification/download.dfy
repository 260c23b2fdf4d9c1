/**
 * The download file name of the `/download` route: `re.sub(r'[^\w\-_.]', '_', name)` and
 * then `producto_<safe>.jpg`. `\w` is taken as ASCII letters, digits and `_`.
 */
module Download {

  /** A character the pattern `[\w\-_.]` keeps. */
  predicate Kept(c: char) {
    ('a' <= c <= 'z') || ('A' <= c <= 'Z') || ('0' <= c <= '9') || c == '_' || c == '-' || c == '.'
  }

  /**
   * Every character outside `[\w\-_.]` becomes `_`; the others stay. The result has the
   * same length and only kept characters.
   */
  function SafeName(name: string): (r: string)
    ensures |r| == |name|
    ensures forall i :: 0 <= i < |r| ==> Kept(r[i])
    ensures forall i :: 0 <= i < |name| ==> (Kept(name[i]) ==> r[i] == name[i]) && (!Kept(name[i]) ==> r[i] == '_')
  {
    seq(|name|, i requires 0 <= i < |name| => if Kept(name[i]) then name[i] else '_')
  }

  /** Sanitising a sanitised name changes nothing. */
  lemma SafeNameIdempotent(name: string)
    ensures SafeName(SafeName(name)) == SafeName(name)
  {
  }

  /** A name made only of kept characters is its own safe name. */
  lemma SafeNameKeepsSafeNames(name: string)
    requires forall i :: 0 <= i < |name| ==> Kept(name[i])
    ensures SafeName(name) == name
  {
  }

  /**
   * `f"producto_{safe_name}.jpg"`: the name sits between the fixed prefix and extension, and
   * no character of it can be a path separator.
   */
  function DownloadFilename(name: string): (f: string)
    ensures |f| == |name| + 13
    ensures f[..9] == "producto_" && f[|f| - 4..] == ".jpg"
    ensures f[9..|f| - 4] == SafeName(name)
    ensures forall i :: 0 <= i < |f| ==> f[i] != '/' && f[i] != '\\'
  {
    var f := "producto_" + SafeName(name) + ".jpg";
    assert forall i :: 9 <= i < |f| - 4 ==> f[i] == SafeName(name)[i - 9];
    f
  }
}

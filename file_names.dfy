/** File-name helpers of the training controller: the image extension
    allow-list (`esImagenValida`) and the label taken from an uploaded file's
    name (`extraerEtiqueta`). Lower-casing is modelled for ASCII letters. */
module FileNames {
  import opened Wrappers

  /** ASCII `toLowerCase` of one character. */
  function LowerChar(c: char): (d: char)
    ensures !('A' <= d <= 'Z')
    ensures c != d ==> 'A' <= c <= 'Z'
  {
    if 'A' <= c <= 'Z' then (c as int + 32) as char else c
  }

  /** ASCII `toLowerCase` of a string. */
  function Lower(s: string): (r: string)
    ensures |r| == |s|
    ensures forall i :: 0 <= i < |s| ==> r[i] == LowerChar(s[i])
  {
    seq(|s|, i requires 0 <= i < |s| => LowerChar(s[i]))
  }

  lemma LowerIdempotent(s: string)
    ensures Lower(Lower(s)) == Lower(s)
  {
  }

  /** `s.endsWith(suffix)`. */
  predicate EndsWith(s: string, suffix: string) {
    |suffix| <= |s| && s[|s| - |suffix|..] == suffix
  }

  /** The allow-list of extensions, in the order the source lists them. */
  const Extensiones: seq<string> := [".jpg", ".jpeg", ".png", ".bmp", ".gif"]

  /** The same allow-list as image types, without the leading dot. */
  const ImageTypes: set<string> := {"jpg", "jpeg", "png", "bmp", "gif"}

  /** `exts.some((ext) => s.endsWith(ext))`. */
  function SomeEndsWith(s: string, exts: seq<string>): (r: bool)
    ensures r <==> exists i :: 0 <= i < |exts| && EndsWith(s, exts[i])
  {
    if exts == [] then false
    else EndsWith(s, exts[0]) || SomeEndsWith(s, exts[1..])
  }

  /** `esImagenValida`: the lower-cased name ends with one of the allowed
      extensions. */
  function EsImagenValida(nombreArchivo: string): (r: bool)
    ensures r <==> exists i :: 0 <= i < |Extensiones| && EndsWith(Lower(nombreArchivo), Extensiones[i])
  {
    SomeEndsWith(Lower(nombreArchivo), Extensiones)
  }

  /** The text after the last '.', or None when there is no '.'. */
  function ExtensionOf(s: string): Option<string>
  {
    if s == [] then None
    else if s[|s| - 1] == '.' then Some([])
    else match ExtensionOf(s[..|s| - 1])
      case None => None
      case Some(e) => Some(e + [s[|s| - 1]])
  }

  /** ExtensionOf(s) is e exactly when s ends with '.' followed by e and e holds no '.'. */
  lemma {:induction false} ExtensionOfIff(s: string, e: string)
    ensures ExtensionOf(s) == Some(e) <==>
      (|e| < |s| && s[|s| - |e| - 1] == '.' && s[|s| - |e|..] == e && '.' !in e)
    decreases |s|
  {
    if s == [] {
    } else if s[|s| - 1] == '.' {
      if e != [] && |e| < |s| && s[|s| - |e|..] == e {
        assert e[|e| - 1] == s[|s| - 1];
      }
    } else {
      var init, last := s[..|s| - 1], s[|s| - 1];
      if e == [] {
        assert s[|s| - 0 - 1] == last;
      } else {
        var e0 := e[..|e| - 1];
        ExtensionOfIff(init, e0);
        if ExtensionOf(s) == Some(e) {
          assert ExtensionOf(init).Some?;
          assert ExtensionOf(init).value + [last] == e;
          assert ExtensionOf(init).value == e0;
          assert s[|s| - |e|..] == init[|init| - |e0|..] + [last];
          assert e == e0 + [last];
          assert '.' !in e;
        }
        if |e| < |s| && s[|s| - |e| - 1] == '.' && s[|s| - |e|..] == e && '.' !in e {
          assert init[|init| - |e0| - 1] == '.';
          assert init[|init| - |e0|..] == s[|s| - |e|..][..|e0|];
          assert e[|e| - 1] == last;
          assert e == e0 + [last];
        }
      }
    }
  }

  /** Ending with ".t" for a dot-free t is having extension t. */
  lemma EndsWithDotIff(s: string, t: string)
    requires '.' !in t
    ensures EndsWith(s, ['.'] + t) <==> ExtensionOf(s) == Some(t)
  {
    ExtensionOfIff(s, t);
    if EndsWith(s, ['.'] + t) {
      assert s[|s| - |t| - 1] == (['.'] + t)[0];
      assert s[|s| - |t|..] == s[|s| - |t| - 1..][1..];
    }
    if ExtensionOf(s) == Some(t) {
      assert s[|s| - |t| - 1..] == [s[|s| - |t| - 1]] + s[|s| - |t|..];
    }
  }

  /** esImagenValida(n) holds exactly when the text after the last '.' of
      the lower-cased name is one of jpg, jpeg, png, bmp, gif; hence the
      check ignores case and looks at the final extension only. */
  lemma EsImagenValidaByExtension(nombreArchivo: string)
    ensures EsImagenValida(nombreArchivo) <==>
      (ExtensionOf(Lower(nombreArchivo)).Some? && ExtensionOf(Lower(nombreArchivo)).value in ImageTypes)
    ensures EsImagenValida(nombreArchivo) == EsImagenValida(Lower(nombreArchivo))
  {
    var l := Lower(nombreArchivo);
    assert Extensiones[0] == ['.'] + "jpg";
    assert Extensiones[1] == ['.'] + "jpeg";
    assert Extensiones[2] == ['.'] + "png";
    assert Extensiones[3] == ['.'] + "bmp";
    assert Extensiones[4] == ['.'] + "gif";
    EndsWithDotIff(l, "jpg");
    EndsWithDotIff(l, "jpeg");
    EndsWithDotIff(l, "png");
    EndsWithDotIff(l, "bmp");
    EndsWithDotIff(l, "gif");
    LowerIdempotent(nombreArchivo);
  }

  lemma LowerAppend(a: string, b: string)
    ensures Lower(a + b) == Lower(a) + Lower(b)
  {
  }

  /** Any name that ends in one of the listed extensions, as listed, is accepted. */
  lemma AllowedExtensionIsValid(stem: string, i: nat)
    requires i < |Extensiones|
    ensures EsImagenValida(stem + Extensiones[i])
  {
    var e := Extensiones[i];
    LowerAppend(stem, e);
    assert Lower(e) == e;
    var l := Lower(stem + e);
    assert l[|l| - |e|..] == e;
  }

  /** `s.split(sep)[0]`: the longest prefix of s without sep. */
  function PrefixBefore(s: string, sep: char): (p: string)
    ensures |p| <= |s| && p == s[..|p|]
    ensures sep !in p
    ensures |p| == |s| || s[|p|] == sep
  {
    if s == [] || s[0] == sep then []
    else [s[0]] + PrefixBefore(s[1..], sep)
  }

  /** `extraerEtiqueta`: the lower-cased part of the name before the first '_'. */
  function ExtraerEtiqueta(filename: string): (etiqueta: string)
    ensures |etiqueta| <= |filename|
    ensures etiqueta == Lower(filename[..|etiqueta|])
    ensures '_' !in filename[..|etiqueta|]
    ensures |etiqueta| == |filename| || filename[|etiqueta|] == '_'
    ensures '_' !in etiqueta
    ensures '_' !in filename ==> etiqueta == Lower(filename)
  {
    Lower(PrefixBefore(filename, '_'))
  }
}

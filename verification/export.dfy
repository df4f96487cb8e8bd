/** How `save` chooses an encoder from the target path
    (src/OpenGraphImage.php:478-496): the text after the last `.`, lower-cased,
    selects PNG, JPEG or WebP; anything else selects nothing. */
module Export {
  import opened Wrappers
  import Ascii

  datatype Format = Png | Jpeg | Webp

  /** `end(explode('.', $path))`: the part of `path` after its last `.`, or the
      whole path when it has no `.`. */
  function Extension(path: string): (ext: string)
    ensures '.' !in ext
    ensures |ext| <= |path| && ext == path[|path| - |ext|..]
    ensures |ext| < |path| ==> path[|path| - |ext| - 1] == '.'
  {
    if path == [] then []
    else if path[|path| - 1] == '.' then []
    else Extension(path[..|path| - 1]) + [path[|path| - 1]]
  }

  /** Whatever comes before it, the extension of `stem.ext` is `ext`. */
  lemma {:induction false} ExtensionAfterDot(stem: string, ext: string)
    requires '.' !in ext
    ensures Extension(stem + "." + ext) == ext
  {
    var path := stem + "." + ext;
    if ext == [] {
      assert path[|path| - 1] == '.';
    } else {
      var shorter := ext[..|ext| - 1];
      assert '.' !in shorter by {
        assert forall c :: c in shorter ==> c in ext;
      }
      ExtensionAfterDot(stem, shorter);
      assert path[..|path| - 1] == stem + "." + shorter;
      assert path[|path| - 1] == ext[|ext| - 1];
      assert ext == shorter + [ext[|ext| - 1]];
    }
  }

  /** A path without a `.` is its own extension. */
  lemma NoDotWholePath(path: string)
    requires '.' !in path
    ensures Extension(path) == path
  {
  }

  function LowerChar(c: char): (l: char)
  {
    if 'A' <= c <= 'Z' then (c as int - 'A' as int + 'a' as int) as char else c
  }

  /** `strtolower`: ASCII upper-case letters mapped to lower case, the rest kept. */
  function Lower(s: string): (r: string)
    ensures |r| == |s|
    ensures forall i :: 0 <= i < |s| ==> !('A' <= r[i] <= 'Z')
    ensures forall i :: 0 <= i < |s| && !('A' <= s[i] <= 'Z') ==> r[i] == s[i]
    ensures forall i :: 0 <= i < |s| && 'A' <= s[i] <= 'Z' ==> r[i] as int == s[i] as int - 'A' as int + 'a' as int
  {
    seq(|s|, i requires 0 <= i < |s| => LowerChar(s[i]))
  }

  /** The `switch` of `save`: the encoder a lower-cased extension selects. */
  function FormatFor(ext: string): (f: Option<Format>)
    ensures f.Some? ==> ExtensionOf(f.value) == ext
    ensures f.None? ==> ext != "png" && ext != "jpg" && ext != "webp"
  {
    if ext == "png" then Some(Png)
    else if ext == "jpg" then Some(Jpeg)
    else if ext == "webp" then Some(Webp)
    else None
  }

  /** The extension each encoder is selected by. */
  function ExtensionOf(f: Format): (ext: string)
  {
    match f
    case Png => "png"
    case Jpeg => "jpg"
    case Webp => "webp"
  }

  /** `FormatFor` and `ExtensionOf` are inverse: an extension selects a format
      exactly when it is that format's extension. */
  lemma FormatForExtension(ext: string, f: Format)
    ensures FormatFor(ext) == Some(f) <==> ext == ExtensionOf(f)
  {
  }

  /** The format `save($path)` encodes to, if any. */
  function SaveFormat(path: string): (f: Option<Format>)
    ensures f.Some? ==> ExtensionOf(f.value) == Lower(Extension(path))
    ensures f.None? ==> forall g :: ExtensionOf(g) != Lower(Extension(path))
  {
    FormatFor(Lower(Extension(path)))
  }

  /** `save` on `stem.ext` picks the format of the lower-cased `ext`; any
      extension other than `png`, `jpg` or `webp` (in any letter case) selects none. */
  lemma SaveFormatOfPath(stem: string, ext: string)
    requires '.' !in ext
    ensures SaveFormat(stem + "." + ext) == FormatFor(Lower(ext))
  {
    ExtensionAfterDot(stem, ext);
  }

  /** A string without upper-case letters is its own lower-case form. */
  lemma LowerUnchanged(s: string)
    requires forall i :: 0 <= i < |s| ==> !('A' <= s[i] <= 'Z')
    ensures Lower(s) == s
  {
  }

  /** The unsupported path the package's tests save to (`stem` is its
      directory and file name): `.wrong` selects nothing. */
  lemma SaveFormatRejectsTestPath(stem: string)
    ensures SaveFormat(stem + "." + "wrong") == None
  {
    LowerUnchanged("wrong");
    SaveFormatOfPath(stem, "wrong");
  }

  /** The supported paths the package's tests save to: `.png`, `.jpg` and
      `.webp` select their formats. */
  lemma SaveFormatOfTestPaths(stem: string)
    ensures SaveFormat(stem + "." + "png") == Some(Png)
    ensures SaveFormat(stem + "." + "jpg") == Some(Jpeg)
    ensures SaveFormat(stem + "." + "webp") == Some(Webp)
  {
    LowerUnchanged("png");
    LowerUnchanged("jpg");
    LowerUnchanged("webp");
    SaveFormatOfPath(stem, "png");
    SaveFormatOfPath(stem, "jpg");
    SaveFormatOfPath(stem, "webp");
  }

  /** An extension spelled like a format's extension in any mix of letter case
      selects that format (`x.Jpg`, `x.WEBP`, `x.pNg`). */
  lemma SaveFormatIgnoresCase(stem: string, ext: string, f: Format)
    requires Ascii.EqualIgnoringCase(ext, ExtensionOf(f))
    ensures SaveFormat(stem + "." + ext) == Some(f)
  {
    var e := ExtensionOf(f);
    assert forall i :: 0 <= i < |e| ==> 'a' <= e[i] <= 'z';
    assert '.' !in ext by {
      forall i | 0 <= i < |ext| ensures ext[i] != '.' {
        assert Ascii.SameIgnoringCase(ext[i], e[i]);
      }
    }
    forall i | 0 <= i < |ext| ensures Lower(ext)[i] == e[i] {
      assert Ascii.SameIgnoringCase(ext[i], e[i]);
    }
    assert Lower(ext) == e;
    SaveFormatOfPath(stem, ext);
  }

  /** Letter case does not matter and `.jpeg` is not accepted. */
  lemma SaveFormatCaseAndSpelling(stem: string)
    ensures SaveFormat(stem + "." + "PNG") == Some(Png)
    ensures SaveFormat(stem + "." + "jpeg") == None
  {
    assert Lower("PNG") == "png" && Lower("jpeg") == "jpeg";
    SaveFormatOfPath(stem, "PNG");
    SaveFormatOfPath(stem, "jpeg");
  }

  /** A path without a `.` is its own extension, so `image` selects nothing. */
  lemma SaveFormatWithoutDot()
    ensures SaveFormat("image") == None
  {
    NoDotWholePath("image");
  }
}

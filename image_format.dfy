/**
 * The image check of the upload handler: the extension of the stored upload,
 * lower-cased, must be `.png`, `.jpg` or `.jpeg`, and the extension handed to
 * the workbook is that one without its dot.
 */
module ImageFormat {
  import opened JsText

  /** The last component of a `/`-separated path. */
  function Basename(path: string): (b: string)
    ensures '/' !in b
    ensures |b| <= |path| && b == path[|path| - |b|..]
    ensures |b| == |path| || path[|path| - |b| - 1] == '/'
  {
    path[LastIndexOf(path, '/') + 1..]
  }

  /**
   * The extension of one path component: from its last dot on; empty when it
   * has no dot, when its only dot leads it, and for the component `..`.
   */
  function ComponentExtension(base: string): (e: string)
    ensures e == "" || (e[0] == '.' && '.' !in e[1..])
    ensures |e| <= |base| && e == base[|base| - |e|..]
    ensures e == "" <==> '.' !in base || base == ".." || (base[0] == '.' && '.' !in base[1..])
  {
    var dot := LastIndexOf(base, '.');
    if dot <= 0 || base == ".." then ""
    else
      assert base[dot..][1..] == base[dot + 1..];
      base[dot..]
  }

  /** `path.extname` on a POSIX path without a trailing `/`. */
  function Extname(path: string): (e: string)
    ensures e == "" || (e[0] == '.' && '.' !in e[1..] && '/' !in e)
    ensures |e| <= |path| && e == path[|path| - |e|..]
    ensures e == ComponentExtension(Basename(path))
  {
    var base := Basename(path);
    var e := ComponentExtension(base);
    assert e == base[|base| - |e|..];
    assert '/' !in e by {
      forall k | 0 <= k < |e| ensures e[k] != '/' {
        assert e[k] == base[|base| - |e| + k];
      }
    }
    e
  }

  /** A component without `/` after the last `/` of a path is its basename. */
  lemma BasenameAfterSlash(dir: string, base: string)
    requires '/' !in base
    ensures Basename(dir + "/" + base) == base
  {
    var path := dir + "/" + base;
    assert path[|dir|] == '/';
    assert path[|dir| + 1..] == base;
    LastOccurrence(path, '/', |dir|);
  }

  /** A dot-free, non-empty stem followed by an extension has that extension. */
  lemma ExtensionAfterStem(stem: string, ext: string)
    requires stem != "" && '.' !in stem
    requires ext == "" || (ext[0] == '.' && '.' !in ext[1..])
    ensures ComponentExtension(stem + ext) == ext
  {
    var base := stem + ext;
    if ext == "" {
      assert base == stem;
    } else {
      assert base[|stem|..] == ext;
      assert base[|stem| + 1..] == ext[1..];
      LastOccurrence(base, '.', |stem|);
      assert base[0] == stem[0] != '.';
    }
  }

  /**
   * The upload is stored as `dir/<stem><ext>` where the stem carries no dot and
   * `ext` is the `extname` of the original file name: the stored path has that
   * same extension.
   */
  lemma ExtnameOfStored(dir: string, stem: string, ext: string)
    requires stem != "" && '.' !in stem && '/' !in stem
    requires ext == "" || (ext[0] == '.' && '.' !in ext[1..] && '/' !in ext)
    ensures Extname(dir + "/" + stem + ext) == ext
  {
    var base := stem + ext;
    assert dir + "/" + stem + ext == dir + "/" + base;
    assert '/' !in base by {
      forall k | 0 <= k < |base| ensures base[k] != '/' {
        if k < |stem| { assert base[k] == stem[k]; } else { assert base[k] == ext[k - |stem|]; }
      }
    }
    BasenameAfterSlash(dir, base);
    ExtensionAfterStem(stem, ext);
  }

  /** The whitelist of app.js:74. */
  const AllowedExtensions: seq<string> := [".png", ".jpg", ".jpeg"]

  /** `allowed.includes(ext)`. */
  predicate IsAllowed(ext: string)
  {
    ext in AllowedExtensions
  }

  /** `ext.replace(".", "")`: the extension passed to `workbook.addImage`. */
  function MediaExtension(ext: string): string
  {
    RemoveFirst(ext, '.')
  }

  /** For a whitelisted extension, the media extension is it without its leading dot. */
  lemma MediaExtensionOfAllowed(ext: string)
    requires IsAllowed(ext)
    ensures MediaExtension(ext) in ["png", "jpg", "jpeg"]
    ensures ext[0] == '.' && MediaExtension(ext) == ext[1..]
  {
    assert |ext| > 0 && ext[0] == '.';
    RemoveLeading(ext, '.');
    WithoutDot(ext);
  }

  lemma WithoutDot(ext: string)
    requires ext == ".png" || ext == ".jpg" || ext == ".jpeg"
    ensures ext[1..] in ["png", "jpg", "jpeg"]
  {
    if ext == ".png" {
      assert ext[1..] == "png";
    } else if ext == ".jpg" {
      assert ext[1..] == "jpg";
    } else {
      assert ext[1..] == "jpeg";
    }
  }

  function UpperChar(c: char): char
  {
    if 'a' <= c <= 'z' then (c as int - 'a' as int + 'A' as int) as char else c
  }

  /**
   * `e` spells `w` up to the case of its letters, written without reference
   * to `toLowerCase`.
   */
  ghost predicate CaseVariant(e: string, w: string)
  {
    |e| == |w| && forall k :: 0 <= k < |e| ==> e[k] == w[k] || e[k] == UpperChar(w[k])
  }

  /** No upper-case ASCII letter in `w`. */
  ghost predicate LowerCaseOnly(w: string)
  {
    forall k :: 0 <= k < |w| ==> !('A' <= w[k] <= 'Z')
  }

  lemma LowerMatches(e: string, w: string)
    requires LowerCaseOnly(w)
    ensures ToLower(e) == w <==> CaseVariant(e, w)
  {
    if CaseVariant(e, w) {
      forall k | 0 <= k < |e| ensures ToLower(e)[k] == w[k] {
      }
    }
    if ToLower(e) == w {
      forall k | 0 <= k < |e| ensures e[k] == w[k] || e[k] == UpperChar(w[k]) {
        assert LowerChar(e[k]) == w[k];
      }
    }
  }

  /**
   * The check of app.js:73-75 is case-insensitive: an extension passes exactly
   * when it spells one of `.png`, `.jpg`, `.jpeg` in any mix of cases.
   */
  lemma AllowedIgnoresCase(e: string)
    ensures IsAllowed(ToLower(e)) <==> exists w :: w in AllowedExtensions && CaseVariant(e, w)
  {
    LowerMatches(e, ".png");
    LowerMatches(e, ".jpg");
    LowerMatches(e, ".jpeg");
  }

  /** An upper-case `.PNG` passes (app.js:73 lower-cases it first). */
  lemma UpperCasePngAllowed()
    ensures IsAllowed(ToLower(".PNG"))
  {
    assert ToLower("G") == "g";
    assert ToLower("NG") == "n" + ToLower("G");
    assert ToLower("PNG") == "p" + ToLower("NG");
    assert ToLower(".PNG") == "." + ToLower("PNG");
    assert ToLower(".PNG") == ".png";
    assert ".png" in AllowedExtensions;
  }

  /** `.gif` is refused, and so is a file name without an extension. */
  lemma GifRefused()
    ensures !IsAllowed(ToLower(".gif")) && !IsAllowed(ToLower(""))
  {
    assert ToLower("f") == "f";
    assert ToLower("if") == "i" + ToLower("f");
    assert ToLower("gif") == "g" + ToLower("if");
    assert ToLower(".gif") == "." + ToLower("gif");
  }
}

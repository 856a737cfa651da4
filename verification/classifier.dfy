/**
 * The content-type chain of the worker's `run`: an ordered, case-sensitive
 * substring test on the full file location (root directory and path), with
 * `text/html` as the fallback.
 */
module ContentClassifier {
  import opened WebText

  const Jpeg: string := "image/jpeg"
  const Png: string := "image/png"
  const Gif: string := "image/gif"
  const Icon: string := "image/x-icon"
  const Html: string := "text/html"

  /** The five content types the worker can announce. */
  predicate KnownType(ct: string)
  {
    ct == Jpeg || ct == Png || ct == Gif || ct == Icon || ct == Html
  }

  /**
   * The first marker of the chain ".jpg", ".png", ".gif", ".ico" found
   * anywhere in `url` decides the type; no marker means HTML.
   */
  function ContentTypeOf(url: string): (ct: string)
    ensures KnownType(ct)
    ensures ct == Jpeg <==> Contains(url, ".jpg")
    ensures ct == Png <==> !Contains(url, ".jpg") && Contains(url, ".png")
    ensures ct == Gif <==> !Contains(url, ".jpg") && !Contains(url, ".png") && Contains(url, ".gif")
    ensures ct == Icon <==>
      !Contains(url, ".jpg") && !Contains(url, ".png") && !Contains(url, ".gif") && Contains(url, ".ico")
    ensures ct == Html <==>
      !Contains(url, ".jpg") && !Contains(url, ".png") && !Contains(url, ".gif") && !Contains(url, ".ico")
  {
    if Contains(url, ".jpg") then Jpeg
    else if Contains(url, ".png") then Png
    else if Contains(url, ".gif") then Gif
    else if Contains(url, ".ico") then Icon
    else Html
  }

  /** Every type but HTML names an image, and HTML does not. */
  lemma ImageTypes(url: string)
    ensures ContentTypeOf(url) != Html <==> Contains(ContentTypeOf(url), "image")
  {
    var ct := ContentTypeOf(url);
    if ct == Html {
      NotContainsMissingChar(Html, "image", 0);
    } else {
      ImageTypeNamesImage(ct);
    }
  }

  /** The four image types begin with "image". */
  lemma ImageTypeNamesImage(ct: string)
    requires ct == Jpeg || ct == Png || ct == Gif || ct == Icon
    ensures Contains(ct, "image")
  {
    assert ct[..5] == "image";
  }

  /**
   * ".jpg" anywhere in the location wins, even inside the root directory or
   * before another extension.
   */
  lemma JpgAnywhere(before: string, after: string)
    ensures ContentTypeOf(before + ".jpg" + after) == Jpeg
  {
    assert ".jpg"[..|".jpg"|] == ".jpg";
    ContainsInContext(before, ".jpg", after, ".jpg");
  }

  /** A pattern holding a character that the string lacks is not contained. */
  lemma NotContainsMissingChar(s: string, p: string, k: nat)
    requires k < |p|
    requires p[k] !in s
    ensures !Contains(s, p)
  {
    ContainsIff(s, p);
    forall i: nat ensures !OccursAt(s, p, i) {
      if i + |p| <= |s| {
        assert s[i..i + |p|][k] == s[i + k];
      }
    }
  }

  /**
   * A file name whose only dot starts its extension holds a marker only if
   * the extension begins with it: a single differing character rules the
   * marker out.
   */
  lemma NotContainsAfterDot(stem: string, ext: string, p: string, k: nat)
    requires '.' !in stem
    requires 0 < |ext| && ext[0] == '.' && '.' !in ext[1..]
    requires 0 < |p| && p[0] == '.'
    requires k < |p| && k < |ext| && ext[k] != p[k]
    ensures !Contains(stem + ext, p)
  {
    var s := stem + ext;
    ContainsIff(s, p);
    forall i: nat ensures !OccursAt(s, p, i) {
      if i + |p| <= |s| {
        assert s[i..i + |p|][0] == s[i];
        if i < |stem| {
          assert s[i] == stem[i];
        } else if i > |stem| {
          assert s[i] == ext[1..][i - |stem| - 1];
        } else {
          assert s[i..i + |p|][k] == ext[k];
        }
      }
    }
  }

  /** The ".jpeg" spelling is not recognised: such a file is served as HTML. */
  lemma JpegSpellingIsHtml(stem: string)
    requires '.' !in stem
    ensures ContentTypeOf(stem + ".jpeg") == Html
  {
    var ext := ".jpeg";
    assert '.' !in ext[1..];
    NotContainsAfterDot(stem, ext, ".jpg", 3);
    NotContainsAfterDot(stem, ext, ".png", 1);
    NotContainsAfterDot(stem, ext, ".gif", 1);
    NotContainsAfterDot(stem, ext, ".ico", 1);
    NoMarkerIsHtml(stem + ext);
  }

  /** A location holding none of the four markers is served as HTML. */
  lemma NoMarkerIsHtml(url: string)
    requires !Contains(url, ".jpg") && !Contains(url, ".png")
    requires !Contains(url, ".gif") && !Contains(url, ".ico")
    ensures ContentTypeOf(url) == Html
  {
  }

  /** Matching is case-sensitive: an upper-case ".JPG" file is served as HTML. */
  lemma UpperCaseIsHtml(stem: string)
    requires '.' !in stem
    ensures ContentTypeOf(stem + ".JPG") == Html
  {
    var ext := ".JPG";
    assert '.' !in ext[1..];
    NotContainsAfterDot(stem, ext, ".jpg", 1);
    NotContainsAfterDot(stem, ext, ".png", 1);
    NotContainsAfterDot(stem, ext, ".gif", 1);
    NotContainsAfterDot(stem, ext, ".ico", 1);
    NoMarkerIsHtml(stem + ext);
  }
}

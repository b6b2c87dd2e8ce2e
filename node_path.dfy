/**
 * Node's POSIX `path.extname`, the only part of the `path` module the upload
 * middleware uses. The extension is taken from the last segment of the path
 * (trailing slashes ignored): from its last '.' to its end, or "" when the
 * segment has no '.', when that '.' is the segment's first character, or when
 * the segment is "..".
 */
module NodePath {
  import opened JsStrings

  /** The path with its trailing slashes removed. */
  function TrimTrailingSlashes(s: string): (r: string)
    ensures |r| <= |s| && r == s[..|r|]
    ensures r == [] || r[|r| - 1] != '/'
    ensures forall k :: |r| <= k < |s| ==> s[k] == '/'
  {
    if s != [] && s[|s| - 1] == '/' then TrimTrailingSlashes(s[..|s| - 1]) else s
  }

  /** The last segment of the path: what follows the last '/' once trailing
      slashes are dropped, or all of it when there is no other '/'. */
  function LastSegment(s: string): (r: string)
    ensures forall k :: 0 <= k < |r| ==> r[k] != '/'
  {
    var t := TrimTrailingSlashes(s);
    t[LastIndexOf(t, '/') + 1..]
  }

  /** The last segment is a tail of the path without its trailing slashes,
      and is either all of it or preceded by a '/'. */
  lemma LastSegmentIsTail(s: string)
    ensures var t := TrimTrailingSlashes(s); var r := LastSegment(s);
      && |r| <= |t| && r == t[|t| - |r|..]
      && (|r| == |t| || t[|t| - |r| - 1] == '/')
  {
    var t := TrimTrailingSlashes(s);
    var slash := LastIndexOf(t, '/');
    assert LastSegment(s) == t[slash + 1..];
  }

  /** The extension of one segment: from its last '.' on, unless that '.'
      is its first character or the segment is "..". */
  function SegmentExt(segment: string): (e: string)
    ensures e != [] ==> |e| < |segment| && e == segment[|segment| - |e|..]
    ensures e == [] || e[0] == '.'
    ensures forall k :: 0 < k < |e| ==> e[k] != '.'
    ensures e == [] <==> (forall k :: 0 < k < |segment| ==> segment[k] != '.') || segment == ".."
  {
    var dot := LastIndexOf(segment, '.');
    if dot <= 0 || segment == ".." then "" else segment[dot..]
  }

  /** path.extname: the last segment's tail from its last '.', which must
      not be the segment's first character; empty when there is no such '.'
      or the segment is "..". The result is empty or a '.' followed by
      characters that are neither '.' nor '/'. */
  function ExtName(path: string): (e: string)
    ensures var segment := LastSegment(path);
      && (e != [] ==> |e| < |segment| && e == segment[|segment| - |e|..])
      && (e == [] <==> (forall k :: 0 < k < |segment| ==> segment[k] != '.') || segment == "..")
    ensures e == [] || e[0] == '.'
    ensures forall k :: 0 <= k < |e| ==> e[k] != '/'
    ensures forall k :: 0 < k < |e| ==> e[k] != '.'
  {
    SegmentExt(LastSegment(path))
  }

  /** The extension keeps its case and starts at the last '.'. */
  lemma ExtNameKeepsCase()
    ensures ExtName("cv.PDF") == ".PDF"
  {
    var p := "cv.PDF";
    assert TrimTrailingSlashes(p) == p;
    LastIndexOfIs(p, '/', -1);
    assert LastSegment(p) == p;
    LastIndexOfIs(p, '.', 2);
  }

  /** A leading '.' does not start an extension. */
  lemma ExtNameOfDotFile()
    ensures ExtName(".bashrc") == ""
  {
    var p := ".bashrc";
    assert TrimTrailingSlashes(p) == p;
    LastIndexOfIs(p, '/', -1);
    assert LastSegment(p) == p;
    LastIndexOfIs(p, '.', 0);
  }

  /** Trailing slashes are ignored and only the last segment counts. */
  lemma ExtNameOfDirectoryPath()
    ensures ExtName("docs.v2/photo.jpg/") == ".jpg"
  {
    var p := "docs.v2/photo.jpg/";
    assert TrimTrailingSlashes(p) == "docs.v2/photo.jpg" by {
      assert p[..|p| - 1] == "docs.v2/photo.jpg";
    }
    LastIndexOfIs("docs.v2/photo.jpg", '/', 7);
    assert LastSegment(p) == "photo.jpg";
    LastIndexOfIs("photo.jpg", '.', 5);
  }

  /** Lower-casing keeps every '.' and '/' where it was and adds none. */
  lemma LowerKeepsSeparators(s: string, c: char)
    requires c == '.' || c == '/'
    ensures LastIndexOf(ToLowerAscii(s), c) == LastIndexOf(s, c)
  {
    LastIndexOfIs(ToLowerAscii(s), c, LastIndexOf(s, c));
  }

  lemma {:induction false} LowerTrimTrailingSlashes(s: string)
    ensures TrimTrailingSlashes(ToLowerAscii(s)) == ToLowerAscii(TrimTrailingSlashes(s))
  {
    if s != [] && s[|s| - 1] == '/' {
      assert ToLowerAscii(s)[..|s| - 1] == ToLowerAscii(s[..|s| - 1]);
      LowerTrimTrailingSlashes(s[..|s| - 1]);
    }
  }

  lemma LowerSlice(s: string, lo: int)
    requires 0 <= lo <= |s|
    ensures ToLowerAscii(s)[lo..] == ToLowerAscii(s[lo..])
  {
  }

  lemma LowerDotDot(s: string)
    ensures s == ".." <==> ToLowerAscii(s) == ".."
  {
    if ToLowerAscii(s) == ".." {
      assert s[0] == '.' && s[1] == '.';
    }
  }

  lemma LowerLastSegment(path: string)
    ensures LastSegment(ToLowerAscii(path)) == ToLowerAscii(LastSegment(path))
  {
    var t := TrimTrailingSlashes(path);
    LowerTrimTrailingSlashes(path);
    LowerKeepsSeparators(t, '/');
    LowerSlice(t, LastIndexOf(t, '/') + 1);
  }

  lemma LowerSegmentExt(seg: string)
    ensures SegmentExt(ToLowerAscii(seg)) == ToLowerAscii(SegmentExt(seg))
  {
    LowerKeepsSeparators(seg, '.');
    LowerDotDot(seg);
    var dot := LastIndexOf(seg, '.');
    if dot > 0 && seg != ".." {
      LowerSlice(seg, dot);
    }
  }

  /** Lower-casing a whole path and then taking its extension is the same as
      lower-casing the extension: ASCII lower-casing maps neither '.' nor '/'
      to anything else, and nothing else to them. */
  lemma ExtNameLowerCommutes(path: string)
    ensures ExtName(ToLowerAscii(path)) == ToLowerAscii(ExtName(path))
  {
    LowerLastSegment(path);
    LowerSegmentExt(LastSegment(path));
  }

  /** A name without any '/' is its own last segment. */
  lemma LastSegmentOfPlain(name: string)
    requires forall k :: 0 <= k < |name| ==> name[k] != '/'
    ensures LastSegment(name) == name
  {
    assert TrimTrailingSlashes(name) == name;
    LastIndexOfIs(name, '/', -1);
  }

  /** A name built as prefix + ExtName(original), where the prefix is non-empty
      and holds neither '.' nor '/', has ExtName(original) as its own extension. */
  lemma ExtNameOfSuffixed(prefix: string, original: string)
    requires prefix != []
    requires forall k :: 0 <= k < |prefix| ==> prefix[k] != '.' && prefix[k] != '/'
    ensures ExtName(prefix + ExtName(original)) == ExtName(original)
  {
    var e := ExtName(original);
    var name := prefix + e;
    forall k | 0 <= k < |name| ensures name[k] != '/' {
      if k >= |prefix| { assert name[k] == e[k - |prefix|]; }
    }
    LastSegmentOfPlain(name);
    if e == [] {
      assert name == prefix;
      LastIndexOfIs(name, '.', -1);
    } else {
      forall k | |prefix| < k < |name| ensures name[k] != '.' {
        assert name[k] == e[k - |prefix|];
      }
      assert name[|prefix|] == '.';
      LastIndexOfIs(name, '.', |prefix|);
      assert name[0] == prefix[0];
      assert name[|prefix|..] == e;
    }
  }
}

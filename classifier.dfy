/**
 * Extension resolution and asset naming in the response handler of clone.js:
 * the URL path's extension wins; otherwise the `content-type` header is probed
 * for five substrings in a fixed order; the asset file name is the sanitised
 * host + path + query, with `_.bin` appended only when no extension was found.
 */
module Classifier {
  import opened Wrappers
  import opened SafeNames

  /** The fields of a parsed `URL` that the handler reads. */
  datatype Url = Url(hostname: string, pathname: string, search: string)

  /** `s.includes(sub)`: `sub` occurs in `s` at some offset (case-sensitive). */
  predicate Includes(s: string, sub: string) {
    exists i :: 0 <= i <= |s| - |sub| && OccursAt(s, sub, i)
  }

  /** `sub` occurs in `s` starting at offset `i`. */
  predicate OccursAt(s: string, sub: string, i: int) {
    0 <= i <= |s| - |sub| && s[i..i + |sub|] == sub
  }

  /** The content-type probes, in the order the handler tries them, with the extension each gives. */
  const ContentTypeRules: seq<(string, string)> :=
    [("javascript", ".js"), ("css", ".css"), ("html", ".html"), ("font", ".woff2"), ("image", ".img")]

  /** `path` without its trailing `/` characters. */
  function TrimTrailingSlashes(path: string): (r: string)
    ensures |r| <= |path|
    ensures r == [] || r[|r| - 1] != '/'
  {
    if |path| > 0 && path[|path| - 1] == '/' then TrimTrailingSlashes(path[..|path| - 1]) else path
  }

  /** The part of `path` after its last `/`. */
  function LastSegment(path: string): (r: string)
    ensures |r| <= |path|
    ensures '/' !in r
  {
    if path == [] || path[|path| - 1] == '/' then []
    else LastSegment(path[..|path| - 1]) + [path[|path| - 1]]
  }

  /** Index of the last `.` of `s`, or -1 when there is none. */
  function LastDot(s: string): (r: int)
    ensures -1 <= r < |s|
    ensures r >= 0 ==> s[r] == '.'
    ensures forall k :: r < k < |s| ==> s[k] != '.'
  {
    if s == [] then -1
    else if s[|s| - 1] == '.' then |s| - 1
    else LastDot(s[..|s| - 1])
  }

  /**
   * Node's `path.extname` on a URL pathname: trailing slashes are ignored, the
   * extension is the last segment from its last `.` on, and it is empty when that
   * segment has no `.`, starts with its only meaningful `.` (`.bashrc`), or is `..`.
   */
  function ExtName(pathname: string): (ext: string)
    ensures ext == [] || (ext[0] == '.' && '/' !in ext && forall k :: 0 < k < |ext| ==> ext[k] != '.')
  {
    var base := LastSegment(TrimTrailingSlashes(pathname));
    var dot := LastDot(base);
    if dot <= 0 || base == ".." then [] else base[dot..]
  }

  /** A file name `stem.e` as the last segment gives the extension `.e` (`/a/b.css` gives `.css`, `/x.` gives `.`). */
  lemma ExtNameOfFile(dir: string, stem: string, e: string)
    requires stem != [] && '/' !in stem && '/' !in e && '.' !in e
    requires stem + "." + e != ".."
    ensures ExtName(dir + "/" + stem + "." + e) == "." + e
  {
    var path := dir + "/" + stem + "." + e;
    var seg := stem + "." + e;
    assert path == (dir + "/") + seg;
    TrimKeepsPath(path);
    LastSegmentAfterSlash(dir, seg);
    LastDotBefore(stem, e);
    assert seg[|stem|..] == "." + e;
  }

  /** A last segment with no `.` after its first unit gives no extension (`/logo`, `/.bashrc`). */
  lemma ExtNameWithoutDot(dir: string, seg: string)
    requires seg != [] && '/' !in seg
    requires forall k :: 0 < k < |seg| ==> seg[k] != '.'
    ensures ExtName(dir + "/" + seg) == ""
  {
    var path := dir + "/" + seg;
    assert path[|path| - 1] == seg[|seg| - 1];
    TrimKeepsPath(path);
    LastSegmentAfterSlash(dir, seg);
  }

  /** The segment `..` gives no extension (`/a/..`). */
  lemma ExtNameOfDotDot(dir: string)
    ensures ExtName(dir + "/" + "..") == ""
  {
    var path := dir + "/" + "..";
    assert path[|path| - 1] == '.';
    TrimKeepsPath(path);
    LastSegmentAfterSlash(dir, "..");
  }

  /** Trailing slashes are ignored (`/a.b/` gives what `/a.b` gives). */
  lemma ExtNameIgnoresTrailingSlash(path: string)
    ensures ExtName(path + "/") == ExtName(path)
  {
    assert (path + "/")[..|path|] == path;
  }

  lemma TrimKeepsPath(path: string)
    requires path != [] && path[|path| - 1] != '/'
    ensures TrimTrailingSlashes(path) == path
  {
  }

  lemma {:induction false} LastSegmentAfterSlash(dir: string, seg: string)
    requires '/' !in seg
    ensures LastSegment(dir + "/" + seg) == seg
  {
    var path := dir + "/" + seg;
    if seg == [] {
      assert path == dir + "/";
    } else {
      var init := seg[..|seg| - 1];
      assert path[..|path| - 1] == dir + "/" + init;
      assert path[|path| - 1] == seg[|seg| - 1];
      LastSegmentAfterSlash(dir, init);
      assert seg == init + [seg[|seg| - 1]];
    }
  }

  lemma {:induction false} LastDotBefore(stem: string, e: string)
    requires '.' !in e
    ensures LastDot(stem + "." + e) == |stem|
  {
    var s := stem + "." + e;
    if e == [] {
      assert s[|s| - 1] == '.';
    } else {
      var init := e[..|e| - 1];
      assert s[..|s| - 1] == stem + "." + init;
      assert s[|s| - 1] == e[|e| - 1];
      LastDotBefore(stem, init);
    }
  }

  /**
   * The if-chain of the handler on the `content-type` header: the extension of the
   * first probe of `ContentTypeRules` that the header includes, or `""` when none does.
   */
  function InferExtension(contentType: string): (ext: string)
    ensures ext == "" <==> forall k :: 0 <= k < |ContentTypeRules| ==> !Includes(contentType, ContentTypeRules[k].0)
    ensures ext != "" ==> exists k :: FirstProbeMatched(contentType, k) && ext == ContentTypeRules[k].1
  {
    var rules := ContentTypeRules;
    if Includes(contentType, "javascript") then
      assert FirstProbeMatched(contentType, 0);
      ".js"
    else if Includes(contentType, "css") then
      assert FirstProbeMatched(contentType, 1);
      ".css"
    else if Includes(contentType, "html") then
      assert FirstProbeMatched(contentType, 2);
      ".html"
    else if Includes(contentType, "font") then
      assert FirstProbeMatched(contentType, 3);
      ".woff2"
    else if Includes(contentType, "image") then
      assert FirstProbeMatched(contentType, 4);
      ".img"
    else
      assert forall k :: 0 <= k < |rules| ==> rules[k].0 in {"javascript", "css", "html", "font", "image"};
      ""
  }

  /** Probe `k` of `ContentTypeRules` is the first one the header includes. */
  predicate FirstProbeMatched(contentType: string, k: int) {
    0 <= k < |ContentTypeRules| && Includes(contentType, ContentTypeRules[k].0)
    && forall j :: 0 <= j < k ==> !Includes(contentType, ContentTypeRules[j].0)
  }

  /** The extension the handler settles on; a missing header counts as `""`. */
  function ResolveExtension(pathname: string, contentType: Option<string>): (ext: string)
    // a path extension is kept whatever the header says
    ensures ExtName(pathname) != "" ==> ext == ExtName(pathname)
    // no extension at all exactly when the path has none and no probe matches the header
    ensures ext == "" <==>
      ExtName(pathname) == "" && forall k :: 0 <= k < |ContentTypeRules| ==> !Includes(contentType.GetOr(""), ContentTypeRules[k].0)
  {
    var ext := ExtName(pathname);
    if ext != "" then ext else InferExtension(contentType.GetOr(""))
  }

  /** What is appended to the name when no extension was found. */
  const UnknownSuffix: string := "_.bin"

  /** The string that is sanitised into the asset name: host, path and query, in that order. */
  function NameKey(u: Url): string {
    u.hostname + u.pathname + u.search
  }

  /** The shape of every asset file name: safe code units only, at most 205 of them. */
  predicate IsAssetName(name: string) {
    IsSafe(name) && |name| <= MaxNameLength + |UnknownSuffix|
  }

  /**
   * The asset file name: the sanitised key, followed by `_.bin` exactly when the
   * resolved extension is empty. The extension itself is never appended.
   */
  function AssetName(u: Url, ext: string): (name: string)
    ensures |name| == Min(|NameKey(u)|, MaxNameLength) + (if ext == "" then |UnknownSuffix| else 0)
    ensures |name| <= MaxNameLength + |UnknownSuffix|
    ensures IsSafe(name)
    ensures name[..|SafeName(NameKey(u))|] == SafeName(NameKey(u))
    ensures ext != "" ==> name == SafeName(NameKey(u))
    ensures ext == "" ==> name[|SafeName(NameKey(u))|..] == UnknownSuffix
  {
    var stem := SafeName(NameKey(u));
    var name := stem + (if ext == "" then UnknownSuffix else "");
    assert forall i :: |stem| <= i < |name| ==> name[i] == UnknownSuffix[i - |stem|];
    name
  }

  /** Lines 52-61 as the handler runs them: `ext` is the path's extension, replaced by the
      header's when empty, and only its emptiness reaches the name. */
  method NameAsset(u: Url, contentType: Option<string>) returns (name: string)
    ensures name == AssetName(u, ResolveExtension(u.pathname, contentType))
    ensures IsAssetName(name)
  {
    var ext := ExtName(u.pathname);
    if ext == "" {
      var ct := contentType.GetOr("");
      ext := InferExtension(ct);
    }
    name := SafeName(NameKey(u)) + (if ext != "" then "" else UnknownSuffix);
  }

  /** Two resolved extensions that are both empty or both non-empty give the same name: only emptiness matters. */
  lemma ExtensionOnlySuppressesSuffix(u: Url, ext1: string, ext2: string)
    requires (ext1 == "") == (ext2 == "")
    ensures AssetName(u, ext1) == AssetName(u, ext2)
  {
  }

  /** A missing `content-type` header and an extension-less path give no extension. */
  lemma MissingHeaderGivesNoExtension(pathname: string)
    requires ExtName(pathname) == ""
    ensures ResolveExtension(pathname, None) == ""
  {
    assert !Includes("", "javascript");
  }

  /** A probe whose first unit occurs at no offset where it could start is not included. */
  lemma NotIncludedByFirstUnit(s: string, probe: string)
    requires |probe| > 0
    requires |probe| <= |s| ==> probe[0] !in s[..|s| - |probe| + 1]
    ensures !Includes(s, probe)
  {
    forall i | 0 <= i <= |s| - |probe| ensures !OccursAt(s, probe, i) {
      assert s[..|s| - |probe| + 1][i] == s[i];
      assert s[i..i + |probe|][0] == s[i];
    }
  }

  /**
   * An extension-less path served as `image/png`: the header gives `.img`, which only
   * suppresses the `_.bin` suffix; the name carries no extension at all.
   */
  lemma ImageWithoutPathExtension(u: Url)
    requires ExtName(u.pathname) == ""
    ensures ResolveExtension(u.pathname, Some("image/png")) == ".img"
    ensures AssetName(u, ResolveExtension(u.pathname, Some("image/png"))) == SafeName(NameKey(u))
  {
    ImagePngIsImg();
  }

  lemma ImagePngIsImg()
    ensures InferExtension("image/png") == ".img"
  {
    var ct := "image/png";
    NotIncludedByFirstUnit(ct, "javascript");
    NotIncludedByFirstUnit(ct, "css");
    NotIncludedByFirstUnit(ct, "html");
    NotIncludedByFirstUnit(ct, "font");
    assert OccursAt(ct, "image", 0);
  }

  /** No path extension and a header none of the probes match: the name gets the `_.bin` suffix. */
  lemma UnknownContentGetsBinSuffix(u: Url)
    requires ExtName(u.pathname) == ""
    ensures ResolveExtension(u.pathname, Some("text/plain")) == ""
    ensures AssetName(u, ResolveExtension(u.pathname, Some("text/plain"))) == SafeName(NameKey(u)) + UnknownSuffix
  {
    TextPlainHasNoExtension();
  }

  lemma TextPlainHasNoExtension()
    ensures InferExtension("text/plain") == ""
  {
    var ct := "text/plain";
    NotIncludedByFirstUnit(ct, "javascript");
    NotIncludedByFirstUnit(ct, "css");
    NotIncludedByFirstUnit(ct, "html");
    NotIncludedByFirstUnit(ct, "font");
    NotIncludedByFirstUnit(ct, "image");
  }

  /** A path with an extension: it wins over any header, and the name is the bare sanitised key. */
  lemma PathExtensionWins(u: Url, contentType: Option<string>)
    requires ExtName(u.pathname) != ""
    ensures ResolveExtension(u.pathname, contentType) == ExtName(u.pathname)
    ensures AssetName(u, ResolveExtension(u.pathname, contentType)) == SafeName(NameKey(u))
  {
  }
}

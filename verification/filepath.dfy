/** The output path of a screenshot: `makeFilepath` in main.go.

    The URL is parsed by Go's `net/url`, which this model does not contain:
    the caller passes the parse as a function `parse` from the request URL to
    either a failure or the parts of the parsed URL, and the pipeline reads
    only the hostname and the escaped path of the result.

    The pipeline:
    1. an escaped path of exactly `/` becomes `/index`;
    2. first pass: every rune of the path outside `[a-zA-Z0-9_.%-]` becomes
       `-` (so every `/` of the path becomes `-` as well);
    3. the path is joined as `prefix/hostname` followed by the sanitised path;
    4. second pass: every rune outside `[a-zA-Z0-9_.%/-]` becomes `-`;
    5. runs of `-` collapse to one `-`, then runs of `/` to one `/`;
    6. one trailing `/` is trimmed.
    Steps 4 to 6 are `Normalize`.
 */
module Filepath {
  import opened Text
  import opened Errors

  const Slash: char := '/'

  /** The first pass's class `[a-zA-Z0-9_.%-]`. */
  predicate IsPathChar(c: char) {
    || 'a' <= c <= 'z'
    || 'A' <= c <= 'Z'
    || '0' <= c <= '9'
    || c == '_' || c == '.' || c == '%' || c == '-'
  }

  /** The second pass's class `[a-zA-Z0-9_.%/-]`: the first one and `/`. */
  predicate IsSaveChar(c: char) {
    IsPathChar(c) || c == Slash
  }

  /** The parts of a parsed URL. `hostname` is what `URL.Hostname()` returns
      (the host without its port) and `escapedPath` what `URL.EscapedPath()`
      returns. */
  datatype URL = URL(
    scheme: string,
    userinfo: string,
    hostname: string,
    port: string,
    escapedPath: string,
    rawQuery: string,
    fragment: string)

  /** The outcome of `url.Parse`. */
  datatype ParseResult = Parsed(url: URL) | ParseFailed(err: string)

  /** What `makeFilepath` returns: Go's `(string, error)` pair. */
  datatype PathResult = PathResult(path: string, err: GoError)

  /** A string the second pass leaves as it is: only runes of the second
      class, no `--`, no `//`, no trailing `/`. */
  predicate IsNormal(s: string) {
    && All(s, IsSaveChar)
    && NoPair(s, Dash, Dash)
    && NoPair(s, Slash, Slash)
    && !EndsWith(s, Slash)
  }

  /** Steps 1 and 2: the escaped path with the root substituted and every
      rune outside the first class, `/` included, rewritten to `-`. */
  function SanitizePath(escapedPath: string): (r: string)
    ensures All(r, IsPathChar)
    ensures Count(r, Slash) == 0
  {
    var p := if escapedPath == "/" then "/index" else escapedPath;
    ReplaceOutsideAll(p, IsPathChar);
    CountAbsent(ReplaceOutside(p, IsPathChar), Slash, IsPathChar);
    ReplaceOutside(p, IsPathChar)
  }

  /** Steps 4 to 6, the second pass over the joined string. Its result is
      normal and holds no more `/` than its input. */
  function Normalize(s: string): (r: string)
    ensures IsNormal(r)
    ensures Count(r, Slash) <= Count(s, Slash)
  {
    var replaced := ReplaceOutside(s, IsSaveChar);
    var dashes := CollapseRuns(replaced, Dash);
    var slashes := CollapseRuns(dashes, Slash);
    ReplaceOutsideAll(s, IsSaveChar);
    ReplaceOutsideCount(s, IsSaveChar, Slash);
    CollapseRunsKeepsAll(replaced, Dash, IsSaveChar);
    CollapseRunsCount(replaced, Dash, Slash);
    CollapseRunsKeepsAll(dashes, Slash, IsSaveChar);
    CollapseRunsKeepsNoPair(dashes, Slash, Dash, Dash);
    CollapseRunsCount(dashes, Slash, Slash);
    TrimSuffixNoTrailing(slashes, Slash);
    TrimSuffixKeeps(slashes, Slash, Dash, Dash, IsSaveChar);
    TrimSuffixKeeps(slashes, Slash, Slash, Slash, IsSaveChar);
    TrimSuffix(slashes, Slash)
  }

  /** Step 3: `prefix/hostname` followed by the sanitised path. */
  function Join(prefix: string, hostname: string, sanitizedPath: string): string {
    prefix + "/" + hostname + sanitizedPath
  }

  /** The output path (without `.png`) for `requestURL` under `prefix`.
      A URL that does not parse gives `""` and the parse error. Otherwise the
      path is normal, and every `/` in it comes from the prefix, the join or
      the hostname: the URL's path contributes none. */
  function MakeFilepath(prefix: string, requestURL: string, parse: string -> ParseResult): (r: PathResult)
    ensures parse(requestURL).ParseFailed? ==>
      r.path == "" && r.err == Error(parse(requestURL).err)
    ensures parse(requestURL).Parsed? ==> r.err == Nil && IsNormal(r.path)
    ensures parse(requestURL).Parsed? ==>
      Count(r.path, Slash) <= Count(prefix, Slash) + 1 + Count(parse(requestURL).url.hostname, Slash)
  {
    match parse(requestURL)
    case ParseFailed(e) => PathResult("", Error(e))
    case Parsed(u) =>
      var sanitized := SanitizePath(u.escapedPath);
      CountAppend(prefix, "/", Slash);
      CountAppend(prefix + "/", u.hostname, Slash);
      CountAppend(prefix + "/" + u.hostname, sanitized, Slash);
      PathResult(Normalize(Join(prefix, u.hostname, sanitized)), Nil)
  }

  // ---------------------------------------------------------------------
  // Properties of the second pass
  // ---------------------------------------------------------------------

  /** The second pass leaves a string unchanged exactly when it is normal. */
  lemma NormalizeFixpoint(s: string)
    ensures Normalize(s) == s <==> IsNormal(s)
  {
    if IsNormal(s) {
      ReplaceOutsideFixpoint(s, IsSaveChar);
      CollapseRunsFixpoint(s, Dash);
      CollapseRunsFixpoint(s, Slash);
    }
  }

  /** Running the second pass again changes nothing. */
  lemma NormalizeIdempotent(s: string)
    ensures Normalize(Normalize(s)) == Normalize(s)
  {
    NormalizeFixpoint(Normalize(s));
  }

  /** A path `makeFilepath` produced is a fixed point of the second pass. */
  lemma MakeFilepathNormalized(prefix: string, requestURL: string, parse: string -> ParseResult)
    ensures Normalize(MakeFilepath(prefix, requestURL, parse).path) == MakeFilepath(prefix, requestURL, parse).path
  {
    NormalizeFixpoint(MakeFilepath(prefix, requestURL, parse).path);
  }

  // ---------------------------------------------------------------------
  // What feeds the result
  // ---------------------------------------------------------------------

  /** Two URLs that parse to the same hostname and escaped path get the same
      output path, whatever their scheme, user information, port, query or
      fragment. */
  lemma OnlyHostnameAndPathMatter(prefix: string, url1: string, url2: string, parse: string -> ParseResult)
    requires parse(url1).Parsed? && parse(url2).Parsed?
    requires parse(url1).url.hostname == parse(url2).url.hostname
    requires parse(url1).url.escapedPath == parse(url2).url.escapedPath
    ensures MakeFilepath(prefix, url1, parse) == MakeFilepath(prefix, url2, parse)
  {
  }

  /** The first pass turns every `/` of the path into `-`, so paths that
      differ only in `/` versus `-` (or in any other rune outside the first
      class) give the same output path: `/a/b` and `/a-b` collide. */
  lemma PathsCollide(prefix: string, url1: string, url2: string, parse: string -> ParseResult)
    requires parse(url1).Parsed? && parse(url2).Parsed?
    requires parse(url1).url.hostname == parse(url2).url.hostname
    requires parse(url1).url.escapedPath == "/a/b"
    requires parse(url2).url.escapedPath == "/a-b"
    ensures MakeFilepath(prefix, url1, parse) == MakeFilepath(prefix, url2, parse)
  {
    assert SanitizePath("/a/b") == "-a-b";
    assert SanitizePath("/a-b") == "-a-b";
  }

  // ---------------------------------------------------------------------
  // The root URL
  // ---------------------------------------------------------------------

  /** A root path is sanitised to `-index`: the `/` of `/index` is itself
      rewritten by the first pass. */
  lemma SanitizeRoot()
    ensures SanitizePath("/") == "-index"
  {
  }

  /** For a root URL the output path is `prefix/hostname-index` whenever that
      string is already normal: not `prefix/hostname/index`. */
  lemma RootURL(prefix: string, requestURL: string, parse: string -> ParseResult)
    requires parse(requestURL).Parsed? && parse(requestURL).url.escapedPath == "/"
    requires IsNormal(prefix + "/" + parse(requestURL).url.hostname + "-index")
    ensures MakeFilepath(prefix, requestURL, parse)
      == PathResult(prefix + "/" + parse(requestURL).url.hostname + "-index", Nil)
  {
    SanitizeRoot();
    NormalizeFixpoint(prefix + "/" + parse(requestURL).url.hostname + "-index");
  }

  /** Under the default prefix `out`, a root URL whose hostname holds only
      runes of the first class, no `--` and no trailing `-` is saved as
      `out/<hostname>-index`. */
  lemma RootURLUnderOut(requestURL: string, parse: string -> ParseResult)
    requires parse(requestURL).Parsed? && parse(requestURL).url.escapedPath == "/"
    requires All(parse(requestURL).url.hostname, IsPathChar)
    requires NoPair(parse(requestURL).url.hostname, Dash, Dash)
    requires !EndsWith(parse(requestURL).url.hostname, Dash)
    ensures MakeFilepath("out", requestURL, parse).path
      == "out/" + parse(requestURL).url.hostname + "-index"
  {
    var h := parse(requestURL).url.hostname;
    IndexTailIsClean();
    AllConcat(h, "-index", IsPathChar);
    NoPairConcat(h, "-index", Dash, Dash);
    OutJoinNormal(h + "-index");
    assert "out" + "/" + h + "-index" == "out/" + (h + "-index");
    RootURL("out", requestURL, parse);
  }

  /** The root's sanitised tail `-index` holds only first-class runes and no
      `--`. */
  lemma IndexTailIsClean()
    ensures All("-index", IsPathChar)
    ensures NoPair("-index", Dash, Dash)
  {
  }

  /** `example.com` holds only runes of the first class, no `--` and no
      trailing `-`. */
  lemma ExampleHostnameIsClean()
    ensures All("example.com", IsPathChar)
    ensures NoPair("example.com", Dash, Dash)
    ensures !EndsWith("example.com", Dash)
  {
  }

  /** `http://example.com/` under `out` is saved as `out/example.com-index`. */
  lemma ExampleRootURL(requestURL: string, parse: string -> ParseResult)
    requires parse(requestURL).Parsed?
    requires parse(requestURL).url.hostname == "example.com"
    requires parse(requestURL).url.escapedPath == "/"
    ensures MakeFilepath("out", requestURL, parse).path == "out/example.com-index"
    ensures MakeFilepath("out", requestURL, parse).err == Nil
  {
    ExampleHostnameIsClean();
    RootURLUnderOut(requestURL, parse);
  }

  // ---------------------------------------------------------------------
  // Runs of rewritten runes
  // ---------------------------------------------------------------------

  /** A rune outside the second class is treated exactly like a `-`. */
  lemma NormalizeDisallowed(x: string, d: char, y: string)
    requires !IsSaveChar(d)
    ensures Normalize(x + [d] + y) == Normalize(x + [Dash] + y)
  {
    ReplaceOutsideConcat(x + [d], y, IsSaveChar);
    ReplaceOutsideConcat(x, [d], IsSaveChar);
    ReplaceOutsideConcat(x + [Dash], y, IsSaveChar);
    ReplaceOutsideConcat(x, [Dash], IsSaveChar);
  }

  /** Two adjacent `-` give the same path as one: a run of `-`, and so a run
      of rewritten runes, of any length ends up as a single `-`. */
  lemma NormalizeDashRun(x: string, y: string)
    ensures Normalize(x + [Dash, Dash] + y) == Normalize(x + [Dash] + y)
  {
    var rx := ReplaceOutside(x, IsSaveChar);
    var ry := ReplaceOutside(y, IsSaveChar);
    ReplaceOutsideConcat(x + [Dash, Dash], y, IsSaveChar);
    ReplaceOutsideConcat(x, [Dash, Dash], IsSaveChar);
    ReplaceOutsideConcat(x + [Dash], y, IsSaveChar);
    ReplaceOutsideConcat(x, [Dash], IsSaveChar);
    assert ReplaceOutside([Dash, Dash], IsSaveChar) == [Dash, Dash];
    assert ReplaceOutside([Dash], IsSaveChar) == [Dash];
    CollapseRunsDropDouble(rx, ry, Dash);
  }

  /** The replacement step passes a `/` run through unchanged. */
  lemma ReplaceAroundSlashes(x: string, y: string, m: string)
    requires m == [Slash] || m == [Slash, Slash]
    ensures ReplaceOutside(x + m + y, IsSaveChar)
      == ReplaceOutside(x, IsSaveChar) + m + ReplaceOutside(y, IsSaveChar)
  {
    ReplaceOutsideConcat(x + m, y, IsSaveChar);
    ReplaceOutsideConcat(x, m, IsSaveChar);
    assert ReplaceOutside(m, IsSaveChar) == m;
  }

  /** A `/` run is left alone by the `-` collapse and neither starts nor
      ends with `-`. */
  lemma SlashRunShape(m: string)
    requires m == [Slash] || m == [Slash, Slash]
    ensures CollapseRuns(m, Dash) == m
    ensures |m| > 0 && m[0] == Slash && !EndsWith(m, Dash)
  {
  }

  /** Two adjacent `/` give the same path as one: a `/` run formed at the
      join, such as the one a prefix ending in `/` makes, ends up as a
      single `/`. */
  lemma NormalizeSlashRun(x: string, y: string)
    ensures Normalize(x + [Slash, Slash] + y) == Normalize(x + [Slash] + y)
  {
    var rx := ReplaceOutside(x, IsSaveChar);
    var ry := ReplaceOutside(y, IsSaveChar);
    ReplaceAroundSlashes(x, y, [Slash, Slash]);
    ReplaceAroundSlashes(x, y, [Slash]);
    SlashRunShape([Slash, Slash]);
    SlashRunShape([Slash]);
    CollapseAround(rx, [Slash, Slash], ry, Dash);
    CollapseAround(rx, [Slash], ry, Dash);
    CollapseRunsDropDouble(CollapseRuns(rx, Dash), CollapseRuns(ry, Dash), Slash);
  }

  /** A normal string with one `/` appended normalises back to itself: the
      trailing `/` is trimmed. */
  lemma NormalizeTrailingSlash(p: string)
    requires IsNormal(p)
    ensures Normalize(p + [Slash]) == p
  {
    var s := p + [Slash];
    AllConcat(p, [Slash], IsSaveChar);
    NoPairConcat(p, [Slash], Dash, Dash);
    NoPairConcat(p, [Slash], Slash, Slash);
    ReplaceOutsideFixpoint(s, IsSaveChar);
    CollapseRunsFixpoint(s, Dash);
    CollapseRunsFixpoint(s, Slash);
    assert s[..|s| - 1] == p;
  }

  /** A URL with an empty hostname and an empty escaped path, as `url.Parse`
      gives for `about:blank` or a `data:` URL, is saved as the normal prefix
      itself: under `out` the screenshot is `out.png`, beside the output
      directory rather than inside it. */
  lemma EmptyHostAndPath(prefix: string, requestURL: string, parse: string -> ParseResult)
    requires IsNormal(prefix)
    requires parse(requestURL).Parsed?
    requires parse(requestURL).url.hostname == "" && parse(requestURL).url.escapedPath == ""
    ensures MakeFilepath(prefix, requestURL, parse) == PathResult(prefix, Nil)
  {
    assert SanitizePath("") == "";
    assert Join(prefix, "", "") == prefix + [Slash];
    NormalizeTrailingSlash(prefix);
  }

  /** An `out/` prefix and an `out` prefix save a root URL at the same path:
      the `//` formed at the join collapses to one `/`. */
  lemma RootURLUnderOutSlash(requestURL: string, parse: string -> ParseResult)
    requires parse(requestURL).Parsed? && parse(requestURL).url.escapedPath == "/"
    requires All(parse(requestURL).url.hostname, IsPathChar)
    requires NoPair(parse(requestURL).url.hostname, Dash, Dash)
    requires !EndsWith(parse(requestURL).url.hostname, Dash)
    ensures MakeFilepath("out/", requestURL, parse).path
      == "out/" + parse(requestURL).url.hostname + "-index"
  {
    var h := parse(requestURL).url.hostname;
    SanitizeRoot();
    assert Join("out/", h, "-index") == "out" + [Slash, Slash] + (h + "-index");
    assert Join("out", h, "-index") == "out" + [Slash] + (h + "-index");
    NormalizeSlashRun("out", h + "-index");
    RootURLUnderOut(requestURL, parse);
  }

  /** `http://example.com/` under `out/` is saved as `out/example.com-index`. */
  lemma ExampleRootURLSlashPrefix(requestURL: string, parse: string -> ParseResult)
    requires parse(requestURL).Parsed?
    requires parse(requestURL).url.hostname == "example.com"
    requires parse(requestURL).url.escapedPath == "/"
    ensures MakeFilepath("out/", requestURL, parse) == PathResult("out/example.com-index", Nil)
  {
    ExampleHostnameIsClean();
    RootURLUnderOutSlash(requestURL, parse);
  }

  /** Under the prefix `out`, a non-empty tail of first-class runes without
      `--` is joined into a normal path. */
  lemma OutJoinNormal(t: string)
    requires |t| > 0
    requires All(t, IsPathChar)
    requires NoPair(t, Dash, Dash)
    ensures IsNormal("out/" + t)
  {
  }

  /** `http://example.com/a//b?x=1` under `out` is saved as
      `out/example.com-a-b`: the escaped path `/a//b` becomes `-a--b` in the
      first pass, so the double slash ends up as one `-`, not as a `/`, and
      the query never reaches the path. */
  lemma ExampleDoubleSlash(requestURL: string, parse: string -> ParseResult)
    requires parse(requestURL).Parsed?
    requires parse(requestURL).url.hostname == "example.com"
    requires parse(requestURL).url.escapedPath == "/a//b"
    ensures MakeFilepath("out", requestURL, parse) == PathResult("out/example.com-a-b", Nil)
  {
    var h := parse(requestURL).url.hostname;
    assert SanitizePath("/a//b") == "-a--b";
    DoubleSlashShape(h);
    ExampleDashRunNormal(h);
  }

  /** `http://example.com/a!!!b` under `out` is saved as
      `out/example.com-a-b`: the three `!` become `---` in the first pass and
      collapse to a single `-`. */
  lemma ExampleBangRun(requestURL: string, parse: string -> ParseResult)
    requires parse(requestURL).Parsed?
    requires parse(requestURL).url.hostname == "example.com"
    requires parse(requestURL).url.escapedPath == "/a!!!b"
    ensures MakeFilepath("out", requestURL, parse) == PathResult("out/example.com-a-b", Nil)
  {
    var h := parse(requestURL).url.hostname;
    assert SanitizePath("/a!!!b") == "-a---b";
    BangRunShape(h);
    NormalizeDashRun("out/" + h + "-a", "-b");
    ExampleDashRunNormal(h);
  }

  /** The second pass turns `out/example.com-a--b` into `out/example.com-a-b`.
      The hostname is a parameter fixed by `requires`, not a literal in the
      body, so that the verifier does not unfold `Normalize` rune by rune. */
  lemma ExampleDashRunNormal(h: string)
    requires h == "example.com"
    ensures Normalize("out/" + h + "-" + "a" + "--" + "b") == "out/example.com-a-b"
  {
    ExampleTailIsClean(h);
    NormalizeDashRunUnderOut(h, "a", "b");
    ExampleJoinShape(h);
  }

  /** Regrouping the joined path of the `/a//b` example. */
  lemma DoubleSlashShape(h: string)
    ensures Join("out", h, "-a--b") == "out/" + h + "-" + "a" + "--" + "b"
  {
  }

  /** Regrouping the joined path of the `/a!!!b` example. */
  lemma BangRunShape(h: string)
    ensures Join("out", h, "-a---b") == ("out/" + h + "-a") + [Dash, Dash] + "-b"
    ensures ("out/" + h + "-a") + [Dash] + "-b" == "out/" + h + "-" + "a" + "--" + "b"
  {
  }

  /** Under the prefix `out`, a clean hostname followed by `-a--b` normalises
      to the hostname followed by `-a-b`. */
  lemma NormalizeDashRunUnderOut(h: string, a: string, b: string)
    requires |a| > 0 && |b| > 0
    requires All(h + ("-" + a + "-" + b), IsPathChar)
    requires NoPair(h + ("-" + a + "-" + b), Dash, Dash)
    ensures Normalize("out/" + h + "-" + a + "--" + b) == "out/" + h + "-" + a + "-" + b
  {
    var x := "out/" + h + "-" + a;
    var t := h + ("-" + a + "-" + b);
    DashRunShape(h, a, b);
    NormalizeDashRun(x, b);
    OutJoinNormal(t);
    NormalizeFixpoint("out/" + t);
  }

  /** Regrouping the joined path around a `--`. */
  lemma DashRunShape(h: string, a: string, b: string)
    ensures "out/" + h + "-" + a + "--" + b == ("out/" + h + "-" + a) + [Dash, Dash] + b
    ensures ("out/" + h + "-" + a) + [Dash] + b == "out/" + (h + ("-" + a + "-" + b))
    ensures "out/" + (h + ("-" + a + "-" + b)) == "out/" + h + "-" + a + "-" + b
  {
  }


  /** `example.com-a-b`, grouped as the join builds it, holds only
      first-class runes and no `--`. The hostname is a parameter fixed by
      `requires` so that callers state the fact without unfolding the
      literal in their own context. */
  lemma ExampleTailIsClean(h: string)
    requires h == "example.com"
    ensures All(h + ("-" + "a" + "-" + "b"), IsPathChar)
    ensures NoPair(h + ("-" + "a" + "-" + "b"), Dash, Dash)
  {
    assert h + ("-" + "a" + "-" + "b") == "example.com-a-b";
  }

  /** The joined example path, spelled out. */
  lemma ExampleJoinShape(h: string)
    requires h == "example.com"
    ensures "out/" + h + "-" + "a" + "-" + "b" == "out/example.com-a-b"
  {
  }
}

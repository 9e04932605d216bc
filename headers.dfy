/** Per-file classification: which files are gzipped, the cache headers every upload
    carries, and the content type of a gzipped upload. */
module Headers {
  import opened Wrappers
  import opened Text

  /** HTTP headers of one upload, as the Python dict of header name to value. */
  type HeaderMap = map<string, string>

  /** `GZIP_EXTENSIONS`, in the order `is_gzip` tries them. */
  const GzipExtensions: seq<string> := [".css", ".js", ".ttf", ".appcache", ".ico"]

  /** The substring that selects the long-lived cache policy. */
  const AssetsMarker: string := "/assets/"

  /** `3600 * 24 * 365 * 2`: two years in seconds. */
  const TwoYearsSeconds: nat := 3600 * 24 * 365 * 2

  /** The content type `guess_mime_type` gives an application cache manifest. */
  const CacheManifestType: string := "text/cache-manifest"

  /** The meaning of `is_gzip`: the name ends with one of the listed extensions. */
  predicate HasGzipExtension(filename: string)
  {
    exists e :: e in GzipExtensions && EndsWith(filename, e)
  }

  /** `is_gzip`: try each extension in turn and return on the first that matches. */
  method IsGzip(filename: string) returns (b: bool)
    ensures b <==> HasGzipExtension(filename)
  {
    for i := 0 to |GzipExtensions|
      invariant forall j :: 0 <= j < i ==> !EndsWith(filename, GzipExtensions[j])
    {
      if EndsWith(filename, GzipExtensions[i]) {
        return true;
      }
    }
    return false;
  }

  /** The five suffixes, written out. */
  lemma GzipExtensionsListed(filename: string)
    ensures HasGzipExtension(filename) <==>
      EndsWith(filename, ".css") || EndsWith(filename, ".js") || EndsWith(filename, ".ttf") ||
      EndsWith(filename, ".appcache") || EndsWith(filename, ".ico")
  {
    if EndsWith(filename, ".css") { assert GzipExtensions[0] == ".css"; }
    if EndsWith(filename, ".js") { assert GzipExtensions[1] == ".js"; }
    if EndsWith(filename, ".ttf") { assert GzipExtensions[2] == ".ttf"; }
    if EndsWith(filename, ".appcache") { assert GzipExtensions[3] == ".appcache"; }
    if EndsWith(filename, ".ico") { assert GzipExtensions[4] == ".ico"; }
  }

  /** Names that end with a listed extension are gzipped. */
  lemma GzipMatchesListed()
    ensures HasGzipExtension("app.js") && HasGzipExtension("site.appcache")
  {
    assert EndsWith("app.js", GzipExtensions[1]);
    assert EndsWith("site.appcache", GzipExtensions[3]);
  }

  /** A name does not end with `t` when one character of its tail differs from `t`. */
  lemma TailDiffers(s: string, t: string, i: nat)
    requires i < |t| <= |s| && s[|s| - |t| + i] != t[i]
    ensures !EndsWith(s, t)
  {
    assert s[|s| - |t|..][i] != t[i];
  }

  /** The match is an exact, case-sensitive suffix match: `.json` is not `.js`, and
      `.JS` is not `.js`. */
  lemma GzipMatchIsExact()
    ensures !HasGzipExtension("x.json") && !HasGzipExtension("X.JS")
  {
    JsonIsNotGzipped();
    CapitalJsIsNotGzipped();
  }

  lemma JsonIsNotGzipped()
    ensures !HasGzipExtension("x.json")
  {
    var name := "x.json";
    TailDiffers(name, ".css", 0);
    TailDiffers(name, ".js", 0);
    TailDiffers(name, ".ttf", 0);
    TailDiffers(name, ".ico", 0);
    GzipExtensionsListed(name);
  }

  lemma CapitalJsIsNotGzipped()
    ensures !HasGzipExtension("X.JS")
  {
    var name := "X.JS";
    TailDiffers(name, ".css", 0);
    TailDiffers(name, ".js", 1);
    TailDiffers(name, ".ttf", 0);
    TailDiffers(name, ".ico", 0);
    GzipExtensionsListed(name);
  }

  /** `'max-age %d' % (3600 * 24 * 365 * 2)` prints these digits. */
  lemma TwoYearsDecimal()
    ensures Decimal(TwoYearsSeconds) == "63072000"
  {
    assert Decimal(6) == "6";
    assert Decimal(63) == "63";
    assert Decimal(630) == "630";
    assert Decimal(6307) == "6307";
    assert Decimal(63072) == "63072";
    assert Decimal(630720) == "630720";
    assert Decimal(6307200) == "6307200";
    assert TwoYearsSeconds == 63072000;
    assert Decimal(63072000) == "63072000";
  }

  /** The long-lived `Cache-Control` value, `'max-age %d' % (3600 * 24 * 365 * 2)`. */
  const AssetsCacheControl: string := "max-age " + Decimal(TwoYearsSeconds)

  lemma AssetsCacheControlLiteral()
    ensures AssetsCacheControl == "max-age 63072000"
  {
    TwoYearsDecimal();
  }

  /** `get_headers(fullpath)`. `expires` is the date text `email.Utils.formatdate` gives
      for the moment two years from now; the code appends " GMT" to it. */
  function GetHeaders(fullpath: string, expires: string): (h: HeaderMap)
    ensures Contains(fullpath, AssetsMarker) ==>
      h.Keys == {"Expires", "Cache-Control"} &&
      h["Expires"] == expires + " GMT" &&
      h["Cache-Control"] == "max-age 63072000"
    ensures !Contains(fullpath, AssetsMarker) ==> h == map["Cache-Control" := "must-revalidate"]
  {
    AssetsCacheControlLiteral();
    if Contains(fullpath, AssetsMarker) then
      map["Expires" := expires + " GMT", "Cache-Control" := AssetsCacheControl]
    else
      map["Cache-Control" := "must-revalidate"]
  }

  /** The header policy depends on nothing but whether `/assets/` occurs in the path. */
  lemma GetHeadersDependsOnlyOnAssets(p: string, q: string, expires: string)
    requires Contains(p, AssetsMarker) <==> Contains(q, AssetsMarker)
    ensures GetHeaders(p, expires) == GetHeaders(q, expires)
  {
  }

  /** The long-lived `Cache-Control` value is `max-age`, a space and two years in
      seconds; there is no `=` in it, which the max-age directive of section 5.2.2.8
      of RFC 7234 expects. */
  lemma AssetsCacheControlValue(fullpath: string, expires: string)
    requires Contains(fullpath, AssetsMarker)
    ensures var v := GetHeaders(fullpath, expires)["Cache-Control"];
      v[..8] == "max-age " && DecimalValue(v[8..]) == TwoYearsSeconds && '=' !in v
  {
    var v := GetHeaders(fullpath, expires)["Cache-Control"];
    DecimalRoundTrip(TwoYearsSeconds);
    assert v[8..] == Decimal(TwoYearsSeconds);
  }

  /** `guess_mime_type`: `.appcache` files are a cache manifest; every other path goes to
      the system's extension table, given here as `table`. */
  function GuessMimeType(path: string, table: string -> Option<string>): Option<string>
  {
    if EndsWith(path, ".appcache") then Some(CacheManifestType) else table(path)
  }

  /** An `.appcache` file gets its type without consulting the table at all. */
  lemma AppCacheIgnoresTable(path: string, t1: string -> Option<string>, t2: string -> Option<string>)
    requires EndsWith(path, ".appcache")
    ensures GuessMimeType(path, t1) == GuessMimeType(path, t2) == Some("text/cache-manifest")
  {
  }

  /** The table is read at the path itself and nowhere else: two tables that agree there
      give the same type, and for a cache manifest they need not agree at all; any other
      path gets exactly the table's entry. */
  lemma MimeTypeReadsTableAtPathOnly(path: string, t1: string -> Option<string>, t2: string -> Option<string>)
    requires t1(path) == t2(path) || EndsWith(path, ".appcache")
    ensures GuessMimeType(path, t1) == GuessMimeType(path, t2)
    ensures !EndsWith(path, ".appcache") ==> GuessMimeType(path, t1) == t1(path)
  {
  }

  /** `if content_type:` -- Python treats both None and the empty string as false. */
  predicate TypeFound(contentType: Option<string>)
  {
    contentType.Some? && contentType.value != []
  }

  /** The gzip branch's additions to the header dict: `Content-Type` when a type was
      found, then `Content-Encoding: gzip`. */
  function GzipHeaders(base: HeaderMap, contentType: Option<string>): (h: HeaderMap)
    ensures h.Keys == base.Keys + {"Content-Encoding"} + (if TypeFound(contentType) then {"Content-Type"} else {})
    ensures h["Content-Encoding"] == "gzip"
    ensures TypeFound(contentType) ==> h["Content-Type"] == contentType.value
    ensures forall k :: k in base && k != "Content-Type" && k != "Content-Encoding" ==> h[k] == base[k]
  {
    var typed := if TypeFound(contentType) then base["Content-Type" := contentType.value] else base;
    typed["Content-Encoding" := "gzip"]
  }

  /** On top of `get_headers`, the gzip branch leaves the cache entries as they were:
      what it adds are exactly the two content headers. */
  lemma GzipHeadersKeepCachePolicy(fullpath: string, expires: string, contentType: Option<string>)
    ensures var base := GetHeaders(fullpath, expires);
      var h := GzipHeaders(base, contentType);
      (forall k :: k in base ==> k in h && h[k] == base[k]) &&
      h.Keys - base.Keys == {"Content-Encoding"} + (if TypeFound(contentType) then {"Content-Type"} else {})
  {
    var base := GetHeaders(fullpath, expires);
    assert "Content-Type" !in base && "Content-Encoding" !in base;
  }
}

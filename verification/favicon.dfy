/**
 * The favicon downloader: URL normalisation, the three-stage choice of the
 * favicon address (page links, standard routes, a public favicon service),
 * the output file naming and the interactive loop.  The network, HTML parsing
 * and image conversion are inputs.
 */
module Favicon {
  import opened Text
  import opened Paths

  // ---------------------------------------------------------------- file names

  /** The characters LimpiarNombreArchivo replaces. */
  const InvalidNameChars: set<char> := {'<', '>', ':', '"', '/', '\\', '|', '?', '*'}

  /** LimpiarNombreArchivo: every invalid character becomes '_', every other one stays. */
  function LimpiarNombreArchivo(nombre: string): (r: string)
    ensures |r| == |nombre|
    ensures forall i :: 0 <= i < |r| ==> r[i] == if nombre[i] in InvalidNameChars then '_' else nombre[i]
  {
    if nombre == "" then ""
    else [if nombre[0] in InvalidNameChars then '_' else nombre[0]] + LimpiarNombreArchivo(nombre[1..])
  }

  /** A sanitised name holds no invalid character, and sanitising it again changes nothing. */
  lemma SanitisedNameIsClean(nombre: string)
    ensures forall c :: c in LimpiarNombreArchivo(nombre) ==> c !in InvalidNameChars
    ensures LimpiarNombreArchivo(LimpiarNombreArchivo(nombre)) == LimpiarNombreArchivo(nombre)
  {
    var r := LimpiarNombreArchivo(nombre);
    forall c | c in r ensures c !in InvalidNameChars {
      var i :| 0 <= i < |r| && r[i] == c;
    }
  }

  /**
   * The name the downloaded favicon is saved under: `<name>.ico` when the
   * address ends in ".ico" or the conversion succeeds, and otherwise
   * `<name>_original` followed by the address's extension.
   */
  function OutputFileName(faviconUrl: string, domain: string, converted: bool): (r: string)
    ensures StartsWith(r, LimpiarNombreArchivo(domain))
    ensures forall i :: 0 <= i < |domain| ==> r[i] !in InvalidNameChars
    ensures EndsWithIgnoreCase(faviconUrl, ".ico") || converted ==> r == LimpiarNombreArchivo(domain) + ".ico"
    ensures !EndsWithIgnoreCase(faviconUrl, ".ico") && !converted ==>
      r == LimpiarNombreArchivo(domain) + "_original" + GetExtension(faviconUrl)
    ensures EndsWithIgnoreCase(faviconUrl, ".ico") || converted ==> GetExtension(r) == ".ico"
    ensures !EndsWithIgnoreCase(faviconUrl, ".ico") && !converted && GetExtension(faviconUrl) != "" ==>
      GetExtension(r) == GetExtension(faviconUrl)
  {
    var fileName := LimpiarNombreArchivo(domain);
    var ext := GetExtension(faviconUrl);
    var suffix := if EndsWithIgnoreCase(faviconUrl, ".ico") || converted then ".ico" else "_original" + ext;
    SanitisedPrefix(domain, suffix);
    SuffixExtension(fileName, ext);
    fileName + suffix
  }

  /** Whatever follows the sanitised name, the name's own characters stay clean. */
  lemma SanitisedPrefix(domain: string, suffix: string)
    ensures StartsWith(LimpiarNombreArchivo(domain) + suffix, LimpiarNombreArchivo(domain))
    ensures forall i :: 0 <= i < |domain| ==> (LimpiarNombreArchivo(domain) + suffix)[i] !in InvalidNameChars
  {
    var name := LimpiarNombreArchivo(domain);
    SanitisedNameIsClean(domain);
    assert (name + suffix)[..|name|] == name;
    forall i | 0 <= i < |domain| ensures (name + suffix)[i] !in InvalidNameChars {
      assert (name + suffix)[i] == name[i];
      assert name[i] in name;
    }
  }

  /** The extension of each of the two saved names. */
  lemma SuffixExtension(fileName: string, ext: string)
    requires ext == "" || IsExtension(ext)
    ensures fileName + "_original" + ext == fileName + ("_original" + ext)
    ensures GetExtension(fileName + ".ico") == ".ico"
    ensures ext != "" ==> GetExtension(fileName + ("_original" + ext)) == ext
  {
    assert IsExtension(".ico");
    ExtensionOfAppended(fileName, ".ico");
    if ext != "" {
      ExtensionOfAppended(fileName + "_original", ext);
      assert fileName + "_original" + ext == fileName + ("_original" + ext);
    }
  }

  /** An icon saved as such is named after the sanitised domain with ".ico", whatever the conversion does. */
  lemma IcoKeepsItsName(faviconUrl: string, domain: string, converted: bool)
    requires EndsWithIgnoreCase(faviconUrl, ".ico")
    ensures OutputFileName(faviconUrl, domain, converted) == LimpiarNombreArchivo(domain) + ".ico"
    ensures forall c :: c in OutputFileName(faviconUrl, domain, converted) ==> c !in InvalidNameChars
  {
    SanitisedNameIsClean(domain);
    CleanWithIco(LimpiarNombreArchivo(domain));
  }

  lemma CleanWithIco(name: string)
    requires forall c :: c in name ==> c !in InvalidNameChars
    ensures forall c :: c in name + ".ico" ==> c !in InvalidNameChars
  {
    forall c | c in name + ".ico" ensures c !in InvalidNameChars {
      if c !in name {
        assert c in ".ico";
      }
    }
  }

  // ---------------------------------------------------------------- URLs

  /** An absolute web address: it starts with "http://" or "https://", in any letter case. */
  predicate HasWebScheme(url: string)
  {
    StartsWith(Fold(url), "http://") || StartsWith(Fold(url), "https://")
  }

  /** ProcesarUrl's normalisation as written: anything not starting with "http" gets "https://" in front. */
  function NormalizeUrl(url: string): (r: string)
    ensures StartsWith(r, "http")
    ensures EndsWith(r, url)
    ensures StartsWith(url, "http") ==> r == url
    ensures !StartsWith(url, "http") ==> r == "https://" + url
  {
    if StartsWith(url, "http") then url else "https://" + url
  }

  /**
   * A host whose name begins with "http", such as "http.cat", is left without
   * a scheme, so the following `new Uri(url)` rejects it.
   */
  lemma NormalizeUrlMissesHttpHosts()
    ensures NormalizeUrl("http.cat") == "http.cat"
    ensures !HasWebScheme(NormalizeUrl("http.cat"))
  {
    assert "http.cat"[..4] == "http";
    assert Fold("http.cat")[4] == '.';
  }

  /** The normalisation as intended: "https://" in front of anything that does not already carry a web scheme. */
  function NormalizeUrlFixed(url: string): (r: string)
    ensures HasWebScheme(r)
    ensures HasWebScheme(url) ==> r == url
    ensures !HasWebScheme(url) ==> r == "https://" + url
  {
    if HasWebScheme(url) then url
    else
      FoldAppend("https://", url);
      assert Fold("https://" + url)[..8] == Fold("https://");
      "https://" + url
  }

  /** Both normalisations agree on every input except those where "http" is not the start of a scheme. */
  lemma NormalizationsAgree(url: string)
    requires StartsWith(url, "http") <==> HasWebScheme(url)
    ensures NormalizeUrl(url) == NormalizeUrlFixed(url)
  {
  }

  /** Normalising twice is normalising once. */
  lemma NormalizeUrlFixedIdempotent(url: string)
    ensures NormalizeUrlFixed(NormalizeUrlFixed(url)) == NormalizeUrlFixed(url)
  {
  }

  /** `scheme://host`, the base of relative favicon links and of the standard routes. */
  function BaseUrl(scheme: string, host: string): string
  {
    scheme + "://" + host
  }

  /** A favicon link: absolute when it starts with "http", otherwise relative to the base address. */
  function ResolveHref(baseUrl: string, href: string): (r: string)
    ensures EndsWith(r, href)
    ensures StartsWith(href, "http") ==> r == href
  {
    if StartsWith(href, "http") then href
    else if StartsWith(href, "/") then baseUrl + href
    else baseUrl + "/" + href
  }

  /** A relative link is placed under the base address with exactly the one slash it needs. */
  lemma RelativeHrefUnderBase(baseUrl: string, href: string)
    requires !StartsWith(href, "http")
    ensures ResolveHref(baseUrl, href) ==
      baseUrl + "/" + (if StartsWith(href, "/") then href[1..] else href)
  {
    if StartsWith(href, "/") {
      assert href == "/" + href[1..];
    }
  }

  /** Position of the first non-empty link, or the number of links when all are empty. */
  function FirstNonEmpty(hrefs: seq<string>): (k: nat)
    ensures k <= |hrefs|
    ensures k < |hrefs| ==> hrefs[k] != ""
    ensures forall i :: 0 <= i < k ==> hrefs[i] == ""
  {
    if hrefs == [] then 0 else if hrefs[0] != "" then 0 else 1 + FirstNonEmpty(hrefs[1..])
  }

  /** The routes tried when the page names no favicon, in order. */
  const StandardRoutes: seq<string> :=
    ["/favicon.ico", "/favicon.png", "/apple-touch-icon.png", "/apple-touch-icon-precomposed.png"]

  /** Position of the first standard route that exists, or the number of routes when none does. */
  function FirstExistingRoute(baseUrl: string, routeExists: string -> bool, from: nat): (k: nat)
    requires from <= |StandardRoutes|
    ensures from <= k <= |StandardRoutes|
    ensures k < |StandardRoutes| ==> routeExists(baseUrl + StandardRoutes[k])
    ensures forall i :: from <= i < k ==> !routeExists(baseUrl + StandardRoutes[i])
    decreases |StandardRoutes| - from
  {
    if from == |StandardRoutes| then from
    else if routeExists(baseUrl + StandardRoutes[from]) then from
    else FirstExistingRoute(baseUrl, routeExists, from + 1)
  }

  /** The last resort: a public favicon service asked for a 64-pixel icon of the host. */
  function GoogleFallback(host: string): string
  {
    "https://www.google.com/s2/favicons?domain=" + host + "&sz=64"
  }

  /**
   * The favicon address chosen for a page: the first non-empty favicon link,
   * else the first standard route that exists, else the fallback service.
   */
  function FaviconChoice(scheme: string, host: string, hrefs: seq<string>, routeExists: string -> bool): (r: string)
    ensures r != ""
  {
    var baseUrl := BaseUrl(scheme, host);
    var k := FirstNonEmpty(hrefs);
    if k < |hrefs| then ResolveHref(baseUrl, hrefs[k])
    else
      var j := FirstExistingRoute(baseUrl, routeExists, 0);
      if j < |StandardRoutes| then baseUrl + StandardRoutes[j] else GoogleFallback(host)
  }

  /**
   * ObtenerUrlFavicon: `hrefs` are the href attributes of the page's icon
   * links (empty when the page could not be read), `routeExists` answers the
   * HEAD requests.  An address is always found.
   */
  method ObtenerUrlFavicon(scheme: string, host: string, hrefs: seq<string>, routeExists: string -> bool)
    returns (faviconUrl: string)
    ensures faviconUrl == FaviconChoice(scheme, host, hrefs, routeExists)
    ensures faviconUrl != ""
  {
    var baseUrl := BaseUrl(scheme, host);
    var i := 0;
    while i < |hrefs|
      invariant 0 <= i <= |hrefs|
      invariant forall k :: 0 <= k < i ==> hrefs[k] == ""
    {
      var href := hrefs[i];
      if href != "" {
        faviconUrl := ResolveHref(baseUrl, href);
        return;
      }
      i := i + 1;
    }
    var j := 0;
    while j < |StandardRoutes|
      invariant 0 <= j <= |StandardRoutes|
      invariant forall k :: 0 <= k < j ==> !routeExists(baseUrl + StandardRoutes[k])
    {
      var candidate := baseUrl + StandardRoutes[j];
      if routeExists(candidate) {
        faviconUrl := candidate;
        return;
      }
      j := j + 1;
    }
    faviconUrl := GoogleFallback(host);
  }

  /** With no usable link and no standard route, the fallback service is asked about the host. */
  lemma NothingFoundUsesService(scheme: string, host: string, hrefs: seq<string>, routeExists: string -> bool)
    requires forall i :: 0 <= i < |hrefs| ==> hrefs[i] == ""
    requires forall r :: r in StandardRoutes ==> !routeExists(BaseUrl(scheme, host) + r)
    ensures FaviconChoice(scheme, host, hrefs, routeExists) == GoogleFallback(host)
  {
  }

  // ---------------------------------------------------------------- interactive loop

  /** The interactive loop stops on a blank line or on "salir" in any letter case. */
  predicate IsExitInput(input: string)
  {
    IsNullOrWhiteSpace(input) || Fold(input) == "salir"
  }

  /** A line ends the loop exactly when it trims to nothing or reads "salir" once lowered. */
  lemma ExitInputIff(input: string)
    ensures IsExitInput(input) <==> Trim(input) == "" || Fold(input) == "salir"
  {
    TrimEmptyIffBlank(input);
  }

  /**
   * ModoInteractivo over the lines typed (end of input also ends the loop):
   * every line before the first exit line is handed on, normalised by the
   * program's own rule, NormalizeUrl.
   */
  method ModoInteractivo(lines: seq<string>) returns (urls: seq<string>)
    ensures |urls| <= |lines|
    ensures forall i :: 0 <= i < |urls| ==> !IsExitInput(lines[i]) && urls[i] == NormalizeUrl(lines[i])
    ensures |urls| < |lines| ==> IsExitInput(lines[|urls|])
  {
    urls := [];
    var i := 0;
    while i < |lines|
      invariant 0 <= i <= |lines| && |urls| == i
      invariant forall k :: 0 <= k < i ==> !IsExitInput(lines[k]) && urls[k] == NormalizeUrl(lines[k])
    {
      var input := lines[i];
      if IsExitInput(input) {
        break;
      }
      urls := urls + [NormalizeUrl(input)];
      i := i + 1;
    }
  }

  /**
   * Where every line handed on by the interactive loop means a scheme when it
   * starts with "http", the loop's URLs are those of the corrected rule.
   */
  lemma InteractiveUrlsAgree(lines: seq<string>, urls: seq<string>)
    requires |urls| <= |lines|
    requires forall i :: 0 <= i < |urls| ==> urls[i] == NormalizeUrl(lines[i])
    requires forall i :: 0 <= i < |urls| ==> (StartsWith(lines[i], "http") <==> HasWebScheme(lines[i]))
    ensures forall i :: 0 <= i < |urls| ==> urls[i] == NormalizeUrlFixed(lines[i])
  {
    forall i | 0 <= i < |urls| ensures urls[i] == NormalizeUrlFixed(lines[i]) {
      NormalizationsAgree(lines[i]);
    }
  }
}

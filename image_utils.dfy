/** lib/imageUtils.ts: turning a photo URL into a data URL for the PDF cards.
    Local and data URLs are used as they are; photos on the two trusted
    domains are fetched through the same-origin proxy, any other URL
    directly. The fetch and the `FileReader` are abstract outcomes. */
module ImageUtils {
  import opened Wrappers
  import opened Text
  import opened Types
  import ProxyImage

  /** `encodeURIComponent`, left abstract. */
  type UriEncoder = string -> string

  ghost predicate Injective(encode: UriEncoder) {
    forall a, b :: encode(a) == encode(b) ==> a == b
  }

  const ProxyRoute: string := "/api/proxy-image?url="

  /** What `convertStudentImageForPDF` treats as "no photo". */
  const PlaceholderPhoto: string := "/test-photo.jpg"

  /** Already usable as it is: a data URL or a same-origin path. */
  predicate IsLocal(imageUrl: string) {
    StartsWith(imageUrl, "data:") || StartsWith(imageUrl, "/")
  }

  /** `fetchUrl`: the proxy route with the encoded URL for the trusted
      domains, the URL itself for any other. */
  function FetchUrl(imageUrl: string, encode: UriEncoder): (r: string)
    ensures ProxyImage.IsAllowedDomain(imageUrl) ==> StartsWith(r, ProxyRoute) && r[|ProxyRoute|..] == encode(imageUrl)
    ensures !ProxyImage.IsAllowedDomain(imageUrl) ==> r == imageUrl
  {
    if ProxyImage.IsAllowedDomain(imageUrl) then
      var r := ProxyRoute + encode(imageUrl);
      assert r[..|ProxyRoute|] == ProxyRoute;
      r
    else imageUrl
  }

  /** Different remote photos are fetched from different URLs: a proxied
      fetch starts with `/` and a direct one does not, and the encoder loses
      nothing. */
  lemma FetchUrlInjective(u: string, v: string, encode: UriEncoder)
    requires Injective(encode)
    requires !IsLocal(u) && !IsLocal(v)
    requires FetchUrl(u, encode) == FetchUrl(v, encode)
    ensures u == v
  {
    var a, b := ProxyImage.IsAllowedDomain(u), ProxyImage.IsAllowedDomain(v);
    if a && b {
      assert encode(u) == FetchUrl(u, encode)[|ProxyRoute|..];
      assert encode(v) == FetchUrl(v, encode)[|ProxyRoute|..];
    }
  }

  /** What `FileReader.readAsDataURL` gives for the fetched blob. */
  datatype ReadOutcome = Loaded(dataUrl: string) | ReadError

  /** What fetching a URL gives: whether the response is ok and what
      reading its body gives, or an exception. */
  datatype FetchOutcome = Fetched(ok: bool, read: ReadOutcome) | FetchThrew

  type Fetcher = string -> FetchOutcome

  /** How a promise settles. */
  datatype Settled<T> = Resolved(value: T) | Rejected

  /** `convertImageToDataURL` as written: the reader's promise is returned
      from inside the `try` without being awaited, so the `catch` never sees
      a reader error and the call rejects instead of giving `null`. */
  function ConvertImageToDataUrlAsWritten(imageUrl: string, encode: UriEncoder, fetch: Fetcher): Settled<Option<string>> {
    if IsLocal(imageUrl) then Resolved(Some(imageUrl))
    else
      match fetch(FetchUrl(imageUrl, encode))
      case FetchThrew => Resolved(None)
      case Fetched(ok, read) =>
        if !ok then Resolved(None)
        else
          match read
          case Loaded(dataUrl) => Resolved(Some(dataUrl))
          case ReadError => Rejected
  }

  /** A remote photo whose download succeeds but cannot be read makes the
      call reject. */
  lemma AsWrittenRejectsOnReadError(encode: UriEncoder)
    ensures ConvertImageToDataUrlAsWritten("https://photos.example.org/a.jpg", encode, (u: string) => Fetched(true, ReadError)) == Rejected
  {
    var url := "https://photos.example.org/a.jpg";
    assert url[..1] == "h" && url[..5] == "https";
    assert !IsLocal(url);
  }

  /** `convertImageToDataURL` as its comments and its callers intend
      (`return await new Promise(...)`): it never rejects, and yields `null`
      whenever the photo cannot be had. */
  function ConvertImageToDataUrl(imageUrl: string, encode: UriEncoder, fetch: Fetcher): (r: Option<string>)
    ensures IsLocal(imageUrl) ==> r == Some(imageUrl)
    ensures !IsLocal(imageUrl) ==>
              match fetch(FetchUrl(imageUrl, encode))
              case FetchThrew => r == None
              case Fetched(ok, read) => r == if ok && read.Loaded? then Some(read.dataUrl) else None
  {
    if IsLocal(imageUrl) then Some(imageUrl)
    else
      match fetch(FetchUrl(imageUrl, encode))
      case FetchThrew => None
      case Fetched(ok, read) =>
        if ok && read.Loaded? then Some(read.dataUrl) else None
  }

  /** The corrected conversion agrees with the code wherever the code
      resolves, and gives `null` where the code rejects. */
  lemma CorrectedAgreesWhereCodeResolves(imageUrl: string, encode: UriEncoder, fetch: Fetcher)
    ensures var w := ConvertImageToDataUrlAsWritten(imageUrl, encode, fetch);
            var c := ConvertImageToDataUrl(imageUrl, encode, fetch);
            (w.Resolved? ==> c == w.value) && (w.Rejected? ==> c == None)
  {
  }

  /** Local and data URLs are never fetched: the result does not depend on
      what any fetch would give. */
  lemma LocalNotFetched(imageUrl: string, encode: UriEncoder, f: Fetcher, g: Fetcher)
    requires IsLocal(imageUrl)
    ensures ConvertImageToDataUrl(imageUrl, encode, f) == ConvertImageToDataUrl(imageUrl, encode, g)
  {
  }

  /** A trusted photo is fetched through the proxy with its URL encoded;
      any other remote photo is fetched at its own URL. */
  lemma RemoteRouting(imageUrl: string, encode: UriEncoder, fetch: Fetcher)
    requires !IsLocal(imageUrl)
    ensures ProxyImage.IsAllowedDomain(imageUrl) ==>
              ConvertImageToDataUrl(imageUrl, encode, fetch)
              == ConvertImageToDataUrl(imageUrl, encode, (u: string) => if u == ProxyRoute + encode(imageUrl) then fetch(u) else FetchThrew)
    ensures !ProxyImage.IsAllowedDomain(imageUrl) ==>
              ConvertImageToDataUrl(imageUrl, encode, fetch)
              == ConvertImageToDataUrl(imageUrl, encode, (u: string) => if u == imageUrl then fetch(u) else FetchThrew)
  {
  }

  /** No photo: missing, blank, or the placeholder image. */
  predicate IsNoPhoto(photoUrl: Option<string>) {
    photoUrl == None || Trim(photoUrl.value) == "" || photoUrl.value == PlaceholderPhoto
  }

  /** `convertStudentImageForPDF` as written, over the conversion as written. */
  function ConvertStudentImageForPdfAsWritten(photoUrl: Option<string>, encode: UriEncoder, fetch: Fetcher): (r: Settled<Option<string>>)
    ensures IsNoPhoto(photoUrl) ==> r == Resolved(None)
  {
    if IsNoPhoto(photoUrl) then Resolved(None)
    else ConvertImageToDataUrlAsWritten(photoUrl.value, encode, fetch)
  }

  /** `convertStudentImageForPDF` over the corrected conversion: no photo
      gives `null` without any conversion, and a blank or placeholder photo
      never reaches the network. */
  function ConvertStudentImageForPdf(photoUrl: Option<string>, encode: UriEncoder, fetch: Fetcher): (r: Option<string>)
    ensures IsNoPhoto(photoUrl) ==> r == None
    ensures !IsNoPhoto(photoUrl) ==> r == ConvertImageToDataUrl(photoUrl.value, encode, fetch)
    ensures r.Some? ==> photoUrl.Some? && (r.value == photoUrl.value || exists u :: fetch(u) == Fetched(true, Loaded(r.value)))
  {
    if IsNoPhoto(photoUrl) then None
    else
      var r := ConvertImageToDataUrl(photoUrl.value, encode, fetch);
      assert r.Some? && r.value != photoUrl.value ==> fetch(FetchUrl(photoUrl.value, encode)) == Fetched(true, Loaded(r.value));
      r
  }

  /** A white-space-only photo URL counts as no photo, and so does the
      placeholder, whatever the fetch would give. */
  lemma BlankIsNoPhoto(photoUrl: string, encode: UriEncoder, fetch: Fetcher)
    requires AllSpace(photoUrl) || photoUrl == PlaceholderPhoto
    ensures ConvertStudentImageForPdf(Some(photoUrl), encode, fetch) == None
  {
  }
}

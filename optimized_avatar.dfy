/** components/OptimizedAvatar.tsx: the small roster photo. It asks the
    proxy for the photo at twice the displayed size, and falls back to a
    placeholder when there is no usable source or the image fails to load. */
module OptimizedAvatar {
  import opened Wrappers
  import opened Text
  import opened ImageUtils

  const DefaultSize: nat := 40
  const DefaultQuality: nat := 80
  const ProxyPath: string := "/api/proxy-image"

  /** The query parameters of the resize request, in order. */
  function QueryParameters(encodedSrc: string, size: nat, quality: nat): (params: seq<string>)
    ensures |params| == 4
  {
    var retinaSize := NatToString(size * 2);
    ["url=" + encodedSrc, "width=" + retinaSize, "height=" + retinaSize, "quality=" + NatToString(quality)]
  }

  /** `getOptimizedSrc`: no source for an empty, blank or placeholder photo;
      otherwise the proxy path and, after `?`, the template's four
      parameters separated by `&`: the encoded source and a square box of
      twice the displayed size at the given quality. */
  function OptimizedSrc(src: string, size: nat, quality: nat, encode: UriEncoder): (r: Option<string>)
    ensures r.None? <==> AllSpace(src) || src == PlaceholderPhoto
    ensures r.Some? ==> StartsWith(r.value, ProxyPath + "?url=" + encode(src))
  {
    if src == "" || Trim(src) == "" || src == PlaceholderPhoto then None
    else
      var params := QueryParameters(encode(src), size, quality);
      var r := ProxyPath + "?" + Join(params, '&');
      FirstParameterLeads(ProxyPath + "?", params);
      Some(r)
  }

  /** A text made of digits holds no separator. */
  lemma DigitsHaveNoSeparator(n: nat)
    ensures '&' !in NatToString(n) && '?' !in NatToString(n)
  {
    assert !IsDigit('&') && !IsDigit('?');
  }

  /** None of the parameters holds `&` or `?` when the encoded source does not. */
  lemma ParametersHaveNoSeparator(e: string, size: nat, quality: nat)
    requires '&' !in e && '?' !in e
    ensures forall piece :: piece in QueryParameters(e, size, quality) ==> '&' !in piece && '?' !in piece
  {
    var w, q := NatToString(size * 2), NatToString(quality);
    DigitsHaveNoSeparator(size * 2);
    DigitsHaveNoSeparator(quality);
    LabelledHasNoSeparator("url=", e);
    LabelledHasNoSeparator("width=", w);
    LabelledHasNoSeparator("height=", w);
    LabelledHasNoSeparator("quality=", q);
  }

  /** A parameter `name=value` holds a separator only if its parts do. */
  lemma LabelledHasNoSeparator(name: string, value: string)
    requires '&' !in name && '?' !in name && '&' !in value && '?' !in value
    ensures '&' !in name + value && '?' !in name + value
  {
    assert forall x :: x in name + value ==> x in name || x in value;
  }

  /** A join of several pieces begins with its first piece. */
  lemma FirstParameterLeads(prefix: string, params: seq<string>)
    requires |params| >= 2
    ensures StartsWith(prefix + Join(params, '&'), prefix + params[0])
  {
    var rest := ['&'] + Join(params[1..], '&');
    assert Join(params, '&') == params[0] + rest;
    assert prefix + Join(params, '&') == (prefix + params[0]) + rest;
  }

  /** The resize request reads back as it was built: with an encoder that
      escapes `&` and `?` (as `encodeURIComponent` does), the path and the
      query split apart at the one `?`, and the query into exactly the four
      parameters `url`, `width`, `height` and `quality`. */
  lemma OptimizedSrcParameters(src: string, size: nat, quality: nat, encode: UriEncoder)
    requires OptimizedSrc(src, size, quality, encode).Some?
    requires '&' !in encode(src) && '?' !in encode(src)
    ensures var query := Join(QueryParameters(encode(src), size, quality), '&');
            Split(OptimizedSrc(src, size, quality, encode).value, '?') == [ProxyPath, query]
            && Split(query, '&') == QueryParameters(encode(src), size, quality)
  {
    var params := QueryParameters(encode(src), size, quality);
    var query := Join(params, '&');
    ParametersHaveNoSeparator(encode(src), size, quality);
    SplitJoin(params, '&');
    NoCharInJoin(params, '&', '?');
    PathAndQuery(query);
  }

  /** The proxy path and a query free of `?` split apart at the `?` between them. */
  lemma PathAndQuery(query: string)
    requires '?' !in query
    ensures Split(ProxyPath + "?" + query, '?') == [ProxyPath, query]
  {
    assert '?' !in ProxyPath;
    SplitPair(ProxyPath, query, '?');
  }

  /** Two texts free of the separator, joined by it, split back into the two. */
  lemma SplitPair(a: string, b: string, sep: char)
    requires sep !in a && sep !in b
    ensures Split(a + [sep] + b, sep) == [a, b]
  {
    SplitAppend(a, b, sep);
    SplitWhole(a, sep);
    SplitWhole(b, sep);
  }

  /** A character in none of the pieces nor the separator is not in their join. */
  lemma {:induction false} NoCharInJoin(pieces: seq<string>, sep: char, c: char)
    requires |pieces| >= 1 && c != sep
    requires forall piece :: piece in pieces ==> c !in piece
    ensures c !in Join(pieces, sep)
  {
    if |pieces| > 1 {
      assert pieces[0] in pieces;
      assert forall piece :: piece in pieces[1..] ==> piece in pieces;
      NoCharInJoin(pieces[1..], sep, c);
    } else {
      assert pieces[0] in pieces;
    }
  }

  /** Without `size` and `quality` props, the proxy is asked for an 80 by 80
      image at quality 80. */
  lemma DefaultRequest(src: string, encode: UriEncoder)
    requires !AllSpace(src) && src != PlaceholderPhoto
    ensures OptimizedSrc(src, DefaultSize, DefaultQuality, encode)
            == Some(ProxyPath + "?" + Join(["url=" + encode(src), "width=80", "height=80", "quality=80"], '&'))
  {
    assert NatToString(80) == "80" by {
      assert NatToString(8) == "8";
    }
    assert "width=" + "80" == "width=80" && "height=" + "80" == "height=80" && "quality=" + "80" == "quality=80";
    assert QueryParameters(encode(src), DefaultSize, DefaultQuality) == ["url=" + encode(src), "width=80", "height=80", "quality=80"];
  }

  /** The props the component reads; `None` is a prop left out. */
  datatype AvatarProps = AvatarProps(src: string, alt: string, size: Option<nat>, className: Option<string>, quality: Option<nat>)

  /** One rendered avatar and its two state flags. */
  class Avatar {
    const src: string
    const size: nat
    const quality: nat
    const encode: UriEncoder
    var isLoading: bool
    var hasError: bool

    /** Missing props take their defaults; the image starts out loading. */
    constructor (props: AvatarProps, encode: UriEncoder)
      ensures src == props.src && size == props.size.GetOr(DefaultSize) && quality == props.quality.GetOr(DefaultQuality)
      ensures this.encode == encode
      ensures isLoading && !hasError
    {
      src := props.src;
      size := props.size.GetOr(DefaultSize);
      quality := props.quality.GetOr(DefaultQuality);
      this.encode := encode;
      isLoading := true;
      hasError := false;
    }

    function Source(): Option<string> {
      OptimizedSrc(src, size, quality, encode)
    }

    /** The placeholder is drawn when there is no source or the image failed. */
    predicate ShowsPlaceholder()
      reads this
    {
      Source().None? || hasError
    }

    /** The loading skeleton is drawn over the image until it settles. */
    predicate ShowsSkeleton()
      reads this
    {
      !ShowsPlaceholder() && isLoading
    }

    /** `handleLoad`: loading is over; an earlier error stays. */
    method HandleLoad()
      modifies this`isLoading
      ensures !isLoading && hasError == old(hasError)
      ensures ShowsPlaceholder() == old(ShowsPlaceholder()) && !ShowsSkeleton()
    {
      isLoading := false;
    }

    /** `handleError`: loading is over and the placeholder is drawn from now
        on, since nothing clears `hasError`. */
    method HandleError()
      modifies this`isLoading, this`hasError
      ensures !isLoading && hasError
      ensures ShowsPlaceholder() && !ShowsSkeleton()
    {
      isLoading := false;
      hasError := true;
    }
  }
}

/** Image URL derivation shared by both services: relative image paths of the
    catalog API are made absolute against one fixed CDN prefix. */
module Images {
  import opened Wrappers

  /** The fixed CDN prefix both services prepend to image paths. */
  const ImageBase: string := "https://image.tmdb.org/t/p/w500"

  /** JavaScript truthiness of a nullable string field: null and "" are falsy. */
  predicate Truthy(path: Option<string>)
  {
    path.Some? && path.value != ""
  }

  /** True iff `url` starts with the CDN prefix. */
  predicate HasImageBase(url: string)
  {
    |ImageBase| <= |url| && url[..|ImageBase|] == ImageBase
  }

  /** The relative path of an absolute image URL. */
  function StripBase(url: string): string
    requires HasImageBase(url)
  {
    url[|ImageBase|..]
  }

  /** The guarded derivation `path ? base + path : null`: a URL exists exactly
      when the path is truthy, and it is never the bare prefix. */
  function ImageUrl(path: Option<string>): (url: Option<string>)
    ensures url.Some? <==> Truthy(path)
    ensures url.Some? ==> HasImageBase(url.value) && |url.value| > |ImageBase|
  {
    if Truthy(path) then Some(ImageBase + path.value) else None
  }

  /** Stripping the prefix from a derived URL gives back the payload's path. */
  lemma ImageUrlRoundTrip(path: Option<string>)
    requires Truthy(path)
    ensures StripBase(ImageUrl(path).value) == path.value
  {
    var url := ImageBase + path.value;
    assert url[|ImageBase|..] == path.value;
  }

  /** Two truthy paths give the same URL only if they are the same path. */
  lemma ImageUrlInjective(a: Option<string>, b: Option<string>)
    requires Truthy(a) && Truthy(b) && ImageUrl(a) == ImageUrl(b)
    ensures a == b
  {
    ImageUrlRoundTrip(a);
    ImageUrlRoundTrip(b);
  }

  /** A string field of the payload as JavaScript's `+` sees it: the key may
      be missing (`undefined`), hold `null`, or hold a string. */
  datatype JsField = Undefined | Null | Text(text: string)

  /** The field as a nullable string: a missing key and `null` are both absent. */
  function FieldValue(v: JsField): (r: Option<string>)
    ensures r.None? <==> !v.Text?
    ensures v.Text? ==> r == Some(v.text)
  {
    if v.Text? then Some(v.text) else None
  }

  /** JavaScript's string conversion of a field, as `+` applies it. */
  function JsString(v: JsField): string
  {
    match v
    case Undefined => "undefined"
    case Null => "null"
    case Text(t) => t
  }

  /** The unguarded derivation `base + path`: it agrees with the guarded one on
      truthy paths, but yields the prefix followed by the text "undefined" for
      a missing key, by "null" for a null path, and the bare prefix for "". */
  function UnguardedImageUrl(path: JsField): (url: string)
    ensures Truthy(FieldValue(path)) ==> ImageUrl(FieldValue(path)) == Some(url)
    ensures path.Undefined? ==> url == ImageBase + "undefined"
    ensures path.Null? ==> url == ImageBase + "null"
    ensures path == Text("") ==> url == ImageBase
    ensures HasImageBase(url)
  {
    ImageBase + JsString(path)
  }
}

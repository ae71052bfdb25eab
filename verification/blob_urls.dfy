/** Serving-time rewrite of image URLs to their blob-storage copies, driven
    by the `USE_BLOB_URLS` setting and the URL map file. The map file is read
    once and passed in as a JSON object; a missing or unreadable file is the
    empty object. */
module BlobUrls {
  import opened Wrappers
  import opened Json
  import opened Urls
  import opened JsonWalk

  /** `isEnabled()`: the setting is exactly "true" or "1". */
  predicate IsEnabled(setting: Option<string>) {
    setting == Some("true") || setting == Some("1")
  }

  /** `getBlobUrl(url)`: the mapped value when enabled and truthy, else the
      URL itself. */
  function GetBlobUrl(enabled: bool, urlMap: seq<Field>, url: string): (r: Json)
    ensures r != JStr(url) ==> enabled && Get(urlMap, url) == Some(r) && Truthy(r)
    ensures enabled && TruthyOpt(Get(urlMap, url)) ==> r == Get(urlMap, url).value
  {
    if enabled && TruthyOpt(Get(urlMap, url)) then Get(urlMap, url).value else JStr(url)
  }

  /** The rewrite of one string leaf: only image URLs are looked up. */
  function RewriteLeaf(enabled: bool, urlMap: seq<Field>): string -> Json {
    s => if IsImageUrl(s) then GetBlobUrl(enabled, urlMap, s) else JStr(s)
  }

  /** `transformUrls(obj)`: the identity when disabled; otherwise the same
      tree with image-URL strings replaced by their mapped values. */
  function TransformUrls(enabled: bool, urlMap: seq<Field>, v: Json): (r: Json)
    ensures !enabled ==> r == v
    ensures Reshaped(v, r, IsImageUrl)
  {
    if !enabled then
      MapIdentity(v, s => JStr(s));
      assert Reshaped(v, MapStrings(v, s => JStr(s)), IsImageUrl) by {
        MapReshaped(v, s => JStr(s), IsImageUrl);
      }
      v
    else
      MapReshaped(v, RewriteLeaf(enabled, urlMap), IsImageUrl);
      MapStrings(v, RewriteLeaf(enabled, urlMap))
  }

  /** When enabled, the rewrite is, leaf by leaf, `getBlobUrl` of every
      image-URL string and nothing else, in a tree of any depth; no other
      tree has that property. */
  lemma TransformLeafwise(urlMap: seq<Field>, v: Json, b: Json)
    ensures Leafwise(v, TransformUrls(true, urlMap, v), RewriteLeaf(true, urlMap))
    ensures Leafwise(v, b, RewriteLeaf(true, urlMap)) <==> b == TransformUrls(true, urlMap, v)
  {
    MapLeafwise(v, RewriteLeaf(true, urlMap));
    if Leafwise(v, b, RewriteLeaf(true, urlMap)) {
      LeafwiseUnique(v, b, RewriteLeaf(true, urlMap));
    }
  }

  /** A string that is no image URL is never rewritten, even when the map
      has an entry for it. */
  lemma NonImageKept(urlMap: seq<Field>, s: string)
    requires !IsImageUrl(s)
    ensures TransformUrls(true, urlMap, JStr(s)) == JStr(s)
  {
  }

  /** An image URL with a truthy entry is replaced by that entry. */
  lemma ImageMapped(urlMap: seq<Field>, s: string)
    requires IsImageUrl(s) && TruthyOpt(Get(urlMap, s))
    ensures TransformUrls(true, urlMap, JStr(s)) == Get(urlMap, s).value
  {
  }
}

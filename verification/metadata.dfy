/** Metadata normalisation of src/App.jsx `fetchChainData`: every missing field
    falls back to a default (JavaScript `||`, so an empty string counts as
    missing) and the image reference is resolved against the base URL of the
    gateway that served the document. */
module Metadata {
  import opened Common
  import opened Text
  import opened Gateway

  /** The placeholder image URL. It is written as two pieces only so that the
      verifier can see its leading characters: it does not look inside a string
      literal this long. */
  const PlaceholderImage := "https://" + "placehold.co/500x500/1a1a1a/ffffff?text=No+Image"
  const DefaultDescription := "No description."

  /** `Pulse NFT #<id>`. */
  function DefaultName(id: nat): (r: string)
    ensures StartsWith(r, "Pulse NFT #")
    ensures r != ""
  {
    "Pulse NFT #" + NatToDecimal(id)
  }

  /** The canonical metadata of one inventory item. */
  datatype ItemMetadata = ItemMetadata(
    name: string,
    description: string,
    attributes: seq<Attribute>,
    image: string)

  /** The image reference rewritten into a URL a browser can load:
      - an `ipfs://` image becomes `<baseUrl>/<its last path segment>`;
      - any other image not starting with `http` is joined to `<baseUrl>/`;
      - an `http…` image is kept as it is;
      - an absent or empty image becomes the placeholder. */
  function NormalizeImage(image: Option<string>, baseUrl: string): (r: string)
    ensures !Truthy(image) ==> r == PlaceholderImage
    ensures Truthy(image) && StartsWith(image.value, IpfsScheme) ==>
              && StartsWith(r, baseUrl + "/")
              && '/' !in r[|baseUrl| + 1..]
              && EndsWith(image.value, "/" + r[|baseUrl| + 1..])
    ensures Truthy(image) && !StartsWith(image.value, IpfsScheme) && !StartsWith(image.value, "http") ==>
              r == baseUrl + "/" + image.value
    ensures Truthy(image) && StartsWith(image.value, "http") ==> r == image.value
  {
    var imageUrl := if Truthy(image) then image.value else PlaceholderImage;
    assert Truthy(image) && StartsWith(image.value, "http") ==> !StartsWith(image.value, IpfsScheme) by {
      if Truthy(image) && StartsWith(image.value, "http") {
        assert image.value[0] == image.value[..4][0] == 'h';
      }
    }
    if Truthy(image) && StartsWith(image.value, IpfsScheme) then
      var imgName := AfterLast(image.value, '/');
      var r := baseUrl + "/" + imgName;
      assert '/' in image.value by {
        assert image.value[5] == '/';
      }
      assert r[..|baseUrl| + 1] == baseUrl + "/";
      assert r[|baseUrl| + 1..] == imgName;
      var v := image.value;
      assert v[|v| - |imgName| - 1..] == [v[|v| - |imgName| - 1]] + v[|v| - |imgName|..];
      r
    else if Truthy(image) && !StartsWith(image.value, "http") then
      baseUrl + "/" + image.value
    else
      imageUrl
  }

  /** A string that starts with `p` still does after anything is appended. */
  lemma StartsWithAppend(s: string, t: string, p: string)
    requires StartsWith(s, p)
    ensures StartsWith(s + t, p)
  {
    assert (s + t)[..|p|] == s[..|p|];
  }

  /** Resolved against an HTTP base URL, every image comes out as an HTTP URL:
      no content-addressed reference survives normalisation. */
  lemma NormalizedImageIsHttp(image: Option<string>, baseUrl: string)
    requires StartsWith(baseUrl, "http")
    ensures StartsWith(NormalizeImage(image, baseUrl), "http")
    ensures !StartsWith(NormalizeImage(image, baseUrl), IpfsScheme)
  {
    var r := NormalizeImage(image, baseUrl);
    if !Truthy(image) {
      assert PlaceholderImage[..4] == "http";
    } else if StartsWith(image.value, "http") {
    } else {
      StartsWithAppend(baseUrl, "/", "http");
      assert StartsWith(r, baseUrl + "/");
      assert r[..4] == (baseUrl + "/")[..4];
    }
    assert r[..4] == "http";
    assert r[0] == 'h';
    assert IpfsScheme[0] == 'i';
  }

  /** The metadata of token `id`, from a document served under `baseUrl`. Never
      fails: a missing name becomes `Pulse NFT #<id>`, a missing description
      `No description.`, missing attributes the empty list. */
  function Normalize(doc: RawMetadata, id: nat, baseUrl: string): (m: ItemMetadata)
    ensures m.name != "" && m.description != ""
    ensures Truthy(doc.name) ==> m.name == doc.name.value
    ensures !Truthy(doc.name) ==> m.name == DefaultName(id)
    ensures Truthy(doc.description) ==> m.description == doc.description.value
    ensures !Truthy(doc.description) ==> m.description == DefaultDescription
    ensures doc.attributes.Some? ==> m.attributes == doc.attributes.value
    ensures doc.attributes.None? ==> m.attributes == []
    ensures m.image == NormalizeImage(doc.image, baseUrl)
  {
    ItemMetadata(
      OrElse(doc.name, DefaultName(id)),
      OrElse(doc.description, DefaultDescription),
      doc.attributes.GetOr([]),
      NormalizeImage(doc.image, baseUrl))
  }

  /** The document a normalised record would be served as. */
  function AsDocument(m: ItemMetadata): RawMetadata {
    RawMetadata(Some(m.name), Some(m.description), Some(m.image), Some(m.attributes))
  }

  /** Normalisation is idempotent: a record already normalised against an HTTP base
      URL comes back unchanged, whatever base URL the second pass uses. */
  lemma NormalizeIdempotent(doc: RawMetadata, id: nat, baseUrl: string, baseUrl2: string)
    requires StartsWith(baseUrl, "http")
    ensures var m := Normalize(doc, id, baseUrl);
            Normalize(AsDocument(m), id, baseUrl2) == m
  {
    NormalizedImageIsHttp(doc.image, baseUrl);
  }
}

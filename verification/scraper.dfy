/**
 * `PaulinaScraper`: the field-by-field fallback chains of `scrape_product`. The parsed
 * page enters the model as the strings that BeautifulSoup's lookups return, kept in the
 * order the program tries its selectors; each chain takes the first usable candidate.
 */
module Scraper {
  import opened Wrappers
  import opened Text
  import opened Urls
  import opened PriceText
  import opened SizeColors

  const DefaultName := "Producto Paulina Mayorista"

  /** What the page offers to the extractor. */
  datatype Page = Page(
    // `value` attribute of `<input name="descripcion">`, None when the input or attribute is absent
    descriptionValue: Option<string>,
    // per name selector ("h3", "h1", ".product-title", ".product-name", in that order):
    // text of its first match (`select_one`), None when nothing matches
    headingTexts: seq<Option<string>>,
    // `float(value)` of `<input name="precio">`, None when absent, empty or unparseable
    hiddenPrice: Option<real>,
    // per price selector (".title strong", "p.title strong", ".precio", ".price", in that
    // order): texts of all its matches (`select`), in document order
    priceTexts: seq<seq<string>>,
    // per gallery selector (the four `.tz-gallery` and `a.lightbox` image selectors, in
    // order): `src` of each matched image, "" when it has none
    gallerySrcs: seq<seq<string>>,
    // `src` of every `<img>` of the page, in document order, "" when it has none
    imageSrcs: seq<string>,
    // the page's first `<table>`, if any
    table: Option<Table>)

  datatype ProductRecord = ProductRecord(
    name: string,
    price: real,
    imageUrl: Option<string>,
    sizesColors: SizeColorMatrix,
    originalUrl: string)

  datatype ScrapeResult = Scraped(record: ProductRecord) | ScrapeFailed

  /** The description input counts when its value is non-empty and not blank. */
  function DescriptionName(value: Option<string>): string {
    match value
    case Some(v) => if v != [] then Strip(v) else []
    case None => []
  }

  function HeadingName(text: Option<string>): string {
    match text
    case Some(t) => Strip(t)
    case None => []
  }

  /** `name` is what the chain yields: the description, else the first non-blank heading, else the default. */
  ghost predicate NameChosen(value: Option<string>, headings: seq<Option<string>>, name: string) {
    if DescriptionName(value) != [] then name == DescriptionName(value)
    else
      (name == DefaultName && forall k :: 0 <= k < |headings| ==> HeadingName(headings[k]) == [])
      || exists k :: 0 <= k < |headings| && name == HeadingName(headings[k]) && name != []
           && forall j :: 0 <= j < k ==> HeadingName(headings[j]) == []
  }

  /** `extract_name` */
  method ExtractName(value: Option<string>, headings: seq<Option<string>>) returns (name: string)
    ensures name != []
    ensures NameChosen(value, headings, name)
  {
    var description := DescriptionName(value);
    if description != [] {
      name := description;
      DescriptionChosen(value, headings);
      return;
    }
    var k := 0;
    while k < |headings|
      invariant 0 <= k <= |headings|
      invariant forall j :: 0 <= j < k ==> HeadingName(headings[j]) == []
    {
      var heading := HeadingName(headings[k]);
      if heading != [] {
        name := heading;
        HeadingChosen(value, headings, k);
        return;
      }
      k := k + 1;
    }
    name := DefaultName;
    DefaultChosen(value, headings);
  }

  lemma DescriptionChosen(value: Option<string>, headings: seq<Option<string>>)
    requires DescriptionName(value) != []
    ensures NameChosen(value, headings, DescriptionName(value))
  {
  }

  lemma HeadingChosen(value: Option<string>, headings: seq<Option<string>>, k: nat)
    requires DescriptionName(value) == [] && k < |headings| && HeadingName(headings[k]) != []
    requires forall j :: 0 <= j < k ==> HeadingName(headings[j]) == []
    ensures NameChosen(value, headings, HeadingName(headings[k]))
  {
  }

  lemma DefaultChosen(value: Option<string>, headings: seq<Option<string>>)
    requires DescriptionName(value) == []
    requires forall j :: 0 <= j < |headings| ==> HeadingName(headings[j]) == []
    ensures NameChosen(value, headings, DefaultName) && DefaultName != []
  {
    assert DefaultName[0] == 'P';
  }

  /** The price shown by the `e`-th match of the `s`-th price selector, if its text has one. */
  function PriceTextAt(texts: seq<seq<string>>, s: nat, e: nat): Option<real>
    requires s < |texts| && e < |texts[s]|
  {
    PriceIn(Strip(texts[s][e]))
  }

  /** No text before position (s, e), in selector-then-document order, shows a price. */
  ghost predicate NoPriceBefore(texts: seq<seq<string>>, s: nat, e: nat)
    requires s <= |texts|
  {
    && (forall s', e' :: 0 <= s' < s && 0 <= e' < |texts[s']| ==> PriceTextAt(texts, s', e').None?)
    && (s < |texts| ==> forall e' :: 0 <= e' < e && e' < |texts[s]| ==> PriceTextAt(texts, s, e').None?)
  }

  /** `price` is what the chain yields: the hidden input, else the first price in the texts, else 0. */
  ghost predicate PriceChosen(hidden: Option<real>, texts: seq<seq<string>>, price: real) {
    match hidden
    case Some(v) => price == v
    case None =>
      (price == 0.0 && NoPriceBefore(texts, |texts|, 0))
      || exists s, e :: 0 <= s < |texts| && 0 <= e < |texts[s]| && NoPriceBefore(texts, s, e)
           && PriceTextAt(texts, s, e) == Some(price)
  }

  /** `extract_price` */
  method ExtractPrice(hidden: Option<real>, texts: seq<seq<string>>) returns (price: real)
    ensures PriceChosen(hidden, texts, price)
    ensures hidden.None? ==> price >= 0.0
  {
    if hidden.Some? {
      return hidden.value;
    }
    var s := 0;
    while s < |texts|
      invariant 0 <= s <= |texts|
      invariant NoPriceBefore(texts, s, 0)
    {
      var e := 0;
      while e < |texts[s]|
        invariant 0 <= e <= |texts[s]|
        invariant NoPriceBefore(texts, s, e)
      {
        var found := PriceTextAt(texts, s, e);
        if found.Some? {
          price := found.value;
          PriceAtChosen(texts, s, e, price);
          return;
        }
        NoPriceNextText(texts, s, e);
        e := e + 1;
      }
      NoPriceNextSelector(texts, s);
      s := s + 1;
    }
    price := 0.0;
  }

  lemma PriceAtChosen(texts: seq<seq<string>>, s: nat, e: nat, price: real)
    requires s < |texts| && e < |texts[s]|
    requires NoPriceBefore(texts, s, e) && PriceTextAt(texts, s, e) == Some(price)
    ensures PriceChosen(None, texts, price) && price >= 0.0
  {
  }

  lemma NoPriceNextText(texts: seq<seq<string>>, s: nat, e: nat)
    requires s < |texts| && e < |texts[s]|
    requires NoPriceBefore(texts, s, e) && PriceTextAt(texts, s, e).None?
    ensures NoPriceBefore(texts, s, e + 1)
  {
  }

  lemma NoPriceNextSelector(texts: seq<seq<string>>, s: nat)
    requires s < |texts| && NoPriceBefore(texts, s, |texts[s]|)
    ensures NoPriceBefore(texts, s + 1, 0)
  {
  }

  /** Strategy 2's filter: a product upload that is not a thumbnail (`in`, case-sensitive, then lower-cased). */
  predicate ProductPhoto(src: string) {
    && src != []
    && Contains(src, "uploads/products/")
    && !Contains(Lower(src), "thumb")
    && !Contains(Lower(src), "small")
    && !Contains(Lower(src), "mini")
  }

  /** The `e`-th image of the `s`-th gallery selector, stripped. */
  function GallerySrcAt(srcs: seq<seq<string>>, s: nat, e: nat): string
    requires s < |srcs| && e < |srcs[s]|
  {
    Strip(srcs[s][e])
  }

  ghost predicate NoGallerySrcBefore(srcs: seq<seq<string>>, s: nat, e: nat)
    requires s <= |srcs|
  {
    && (forall s', e' :: 0 <= s' < s && 0 <= e' < |srcs[s']| ==> GallerySrcAt(srcs, s', e') == [])
    && (s < |srcs| ==> forall e' :: 0 <= e' < e && e' < |srcs[s]| ==> GallerySrcAt(srcs, s, e') == [])
  }

  /** `url` is what the chain yields: the first gallery image, else the first product photo, else None. */
  ghost predicate ImageChosen(gallery: seq<seq<string>>, page: seq<string>, base: BaseUrl, url: Option<string>) {
    (exists s, e :: 0 <= s < |gallery| && 0 <= e < |gallery[s]| && NoGallerySrcBefore(gallery, s, e)
       && GallerySrcAt(gallery, s, e) != [] && url == Some(MakeAbsoluteUrl(GallerySrcAt(gallery, s, e), base)))
    || (NoGallerySrcBefore(gallery, |gallery|, 0) &&
         ((exists i :: 0 <= i < |page| && ProductPhoto(page[i]) && (forall j :: 0 <= j < i ==> !ProductPhoto(page[j]))
             && url == Some(MakeAbsoluteUrl(page[i], base)))
          || (url == None && forall i :: 0 <= i < |page| ==> !ProductPhoto(page[i]))))
  }

  /** `extract_image` */
  method ExtractImage(gallery: seq<seq<string>>, page: seq<string>, base: BaseUrl) returns (url: Option<string>)
    ensures ImageChosen(gallery, page, base, url)
  {
    var s := 0;
    while s < |gallery|
      invariant 0 <= s <= |gallery|
      invariant NoGallerySrcBefore(gallery, s, 0)
    {
      var e := 0;
      while e < |gallery[s]|
        invariant 0 <= e <= |gallery[s]|
        invariant NoGallerySrcBefore(gallery, s, e)
      {
        var src := Strip(gallery[s][e]);
        if src != [] {
          url := Some(MakeAbsoluteUrl(src, base));
          GalleryImageChosen(gallery, page, base, s, e);
          return;
        }
        NoGallerySrcNextImage(gallery, s, e);
        e := e + 1;
      }
      NoGallerySrcNextSelector(gallery, s);
      s := s + 1;
    }
    var i := 0;
    while i < |page|
      invariant 0 <= i <= |page|
      invariant forall j :: 0 <= j < i ==> !ProductPhoto(page[j])
    {
      if page[i] != [] && Contains(page[i], "uploads/products/") {
        var lower := Lower(page[i]);
        if !(Contains(lower, "thumb") || Contains(lower, "small") || Contains(lower, "mini")) {
          url := Some(MakeAbsoluteUrl(page[i], base));
          PageImageChosen(gallery, page, base, i);
          return;
        }
      }
      i := i + 1;
    }
    url := None;
    NoImageChosen(gallery, page, base);
  }

  lemma NoGallerySrcNextImage(srcs: seq<seq<string>>, s: nat, e: nat)
    requires s < |srcs| && e < |srcs[s]|
    requires NoGallerySrcBefore(srcs, s, e) && GallerySrcAt(srcs, s, e) == []
    ensures NoGallerySrcBefore(srcs, s, e + 1)
  {
  }

  lemma NoGallerySrcNextSelector(srcs: seq<seq<string>>, s: nat)
    requires s < |srcs| && NoGallerySrcBefore(srcs, s, |srcs[s]|)
    ensures NoGallerySrcBefore(srcs, s + 1, 0)
  {
  }

  lemma GalleryImageChosen(gallery: seq<seq<string>>, page: seq<string>, base: BaseUrl, s: nat, e: nat)
    requires s < |gallery| && e < |gallery[s]|
    requires NoGallerySrcBefore(gallery, s, e) && GallerySrcAt(gallery, s, e) != []
    ensures ImageChosen(gallery, page, base, Some(MakeAbsoluteUrl(GallerySrcAt(gallery, s, e), base)))
  {
  }

  lemma PageImageChosen(gallery: seq<seq<string>>, page: seq<string>, base: BaseUrl, i: nat)
    requires NoGallerySrcBefore(gallery, |gallery|, 0)
    requires i < |page| && ProductPhoto(page[i]) && forall j :: 0 <= j < i ==> !ProductPhoto(page[j])
    ensures ImageChosen(gallery, page, base, Some(MakeAbsoluteUrl(page[i], base)))
  {
  }

  lemma NoImageChosen(gallery: seq<seq<string>>, page: seq<string>, base: BaseUrl)
    requires NoGallerySrcBefore(gallery, |gallery|, 0)
    requires forall j :: 0 <= j < |page| ==> !ProductPhoto(page[j])
    ensures ImageChosen(gallery, page, base, None)
  {
  }

  /** `scrape_product`: a failed page fetch is the error result; otherwise every field is extracted. */
  method ScrapeProduct(fetched: Option<Page>, url: string, base: BaseUrl) returns (r: ScrapeResult)
    ensures fetched.None? <==> r == ScrapeFailed
    ensures r.Scraped? ==> r.record.originalUrl == url && r.record.name != []
    ensures r.Scraped? ==> NameChosen(fetched.value.descriptionValue, fetched.value.headingTexts, r.record.name)
    ensures r.Scraped? ==> PriceChosen(fetched.value.hiddenPrice, fetched.value.priceTexts, r.record.price)
    ensures r.Scraped? ==> ImageChosen(fetched.value.gallerySrcs, fetched.value.imageSrcs, base, r.record.imageUrl)
    ensures r.Scraped? ==> AllAvailable(r.record.sizesColors)
    ensures r.Scraped? ==> r.record.sizesColors.availability.Keys == set c | c in r.record.sizesColors.colors
    ensures r.Scraped? ==> forall c :: c in r.record.sizesColors.availability ==>
      r.record.sizesColors.availability[c] == FullRow(r.record.sizesColors.sizes)
    ensures r.Scraped? && fetched.value.table.None? ==> r.record.sizesColors == NoMatrix
    ensures r.Scraped? && fetched.value.table.Some? ==>
      var t := fetched.value.table.value;
      && r.record.sizesColors.colors == ColorsOf(t.labelSpans)
      && r.record.sizesColors.sizes == (if NonEmpty(AfterCorner(t.headerCells)) == [] then [SingleSize] else NonEmpty(AfterCorner(t.headerCells)))
  {
    if fetched.None? {
      return ScrapeFailed;
    }
    var page := fetched.value;
    var name := ExtractName(page.descriptionValue, page.headingTexts);
    var price := ExtractPrice(page.hiddenPrice, page.priceTexts);
    var image := ExtractImage(page.gallerySrcs, page.imageSrcs, base);
    var matrix := ExtractSizesAndColors(page.table);
    r := Scraped(ProductRecord(name, price, image, matrix, url));
  }

  /** A page with no hidden price and no price-looking text is priced at 0. */
  lemma NoPriceMeansZero(texts: seq<seq<string>>, price: real)
    requires PriceChosen(None, texts, price)
    requires forall s, e :: 0 <= s < |texts| && 0 <= e < |texts[s]| ==> PriceTextAt(texts, s, e).None?
    ensures price == 0.0
  {
  }
}

# Tangas product-image generator — Dafny model

`app.py` is a small Flask service for a clothing wholesaler. `PaulinaScraper` reads a
product page: its name, price, main photo and size/colour table. `ImageGenerator` then
composes a sale image: the table at the top, the photo scaled into a box below it, and the
name and a re-priced amount underneath. The price is the scraped price run through a
user formula and rounded up to a tier multiple.

This project models the decision logic and arithmetic of that pipeline, one module per
concern:

- `Text` — the Python string operations it relies on: `strip`, `split`, `' '.join`, `in`,
  `startswith` and `lower`.
- `Urls` — `make_absolute_url`.
- `PriceText` — the price regex `\$?\s*(\d+[.,]\d+)` and the decimal reading of its first match.
- `SizeColors` — `extract_sizes_and_colors`, with its loops.
- `Scraper` — the fallback chains of `extract_name`, `extract_price` and `extract_image`,
  and `scrape_product`.
- `Layout` — `calculate_layout` and the ratio of `resize_product_image`.
- `TableDrawing` — the numbers of `draw_sizes_colors_table`.
- `Composition` — the geometry of `generate_product_image`.
- `Pricing` — `calculate_price`, `smart_round_price` and `round_to_nearest`.
- `TextWrap` — `wrap_text`, with its loop.
- `Download` — the download file name.

The scraper's selector loops, the size/colour extraction loops and the `wrap_text` loop
are Dafny methods with `while` loops. Each is proved equal to a reference function, or to
a predicate stating what the program promises. The cell loops of
`draw_sizes_colors_table` only paint; they are modelled by the cell geometry they compute.

The default product name is "Producto Paulina Mayorista" (app.py:70), and the sizes list
is not deduplicated (app.py:174-177); the model does the same.

The parsed HTML enters the model as the strings BeautifulSoup's lookups return, in the
order the program tries its selectors. The page URL enters as its `(scheme, netloc)` pair.
The outcome of `eval` on the price formula enters as an optional number.

Prices and ratios are exact `real`s:

- `int(x)` of a non-negative value is `Floor`.
- `//` by a positive number is Dafny's `/`.
- `math.ceil` is `Ceil`.

Python's whitespace is restricted to its ASCII members: tab, line feed, vertical tab, form
feed, carriage return, the separators U+001C to U+001F, and space. `\d`, `\w` and `lower()`
are restricted to ASCII as well.

## Model

| member | source | states |
|---|---|---|
| Urls.MakeAbsoluteUrl | app.py:208-225 | `//x` gives `"https:" + x` whatever the page scheme; `/x` gives origin + x; otherwise a source starting with `http` is unchanged; anything else gives origin + "/" + x; the source is always a suffix of the result |
| Urls.MakeAbsoluteUrlGivesAbsolute | app.py:208-225 | on an http(s) page every result starts with `http` |
| Urls.MakeAbsoluteUrlIdempotent | app.py:208-225 | on an http(s) page, making a result absolute again changes nothing |
| Urls.ProtocolRelativeExample | app.py:210-211 | `//c/a.jpg` on an `http` page becomes `https://c/a.jpg` |
| Urls.RootRelativeExample | app.py:212-214 | `/a.jpg` becomes `http://shop/a.jpg` |
| Urls.PathRelativeExample | app.py:217-225 | `p/a.jpg` is resolved against the origin, not the page directory |
| Text.Strip | app.py:50 | `strip()` is empty exactly for an all-blank string and otherwise neither starts nor ends with a blank |
| Text.StripIsTrim | app.py:50 | `strip()` is a piece of its input with only blanks on either side |
| Text.Words | app.py:624 | `split()` gives non-empty words without blanks, and none for an all-blank text |
| Text.WordsOfJoin | app.py:630 | joining blank-free words with spaces and splitting again gives the words back |
| Text.JoinAppend | app.py:630 | joining two groups of words is joining each with one space between |
| Text.Lower | app.py:147 | `lower()` maps exactly the ASCII capitals to small letters and keeps the rest |
| PriceText.MatchAt | app.py:97 | the greedy match of `\d+[.,]\d+` tried at one position: when there is one, it has that shape and its last digit run cannot be extended; when there is none, no substring starting there has the shape |
| PriceText.FirstMatchFrom | app.py:97 | the scan returns the first position with a match, and no earlier position has one |
| PriceText.FindPriceToken | app.py:97-98 | `findall(...)[0]`: the leftmost substring of the price shape, as long as it goes; none exactly when no substring has the shape |
| PriceText.NormalizedToken | app.py:99 | `replace(',', '.')` keeps the token's digits and puts `.` at the separator |
| PriceText.DecimalValue | app.py:100 | `float` of `digits.digits` is non-negative and its integer part is the value of the digits before the point |
| PriceText.MatchValue | app.py:97-100 | the value of the chosen token is non-negative and its integer part is that of the digits before the separator |
| PriceText.PriceIn | app.py:96-100 | a text shows a price exactly when some substring has the price shape, and that price is non-negative |
| PriceText.MatchValueParts | app.py:99-100 | a token's value is its whole digits plus its fraction digits over a power of ten |
| PriceText.CommaIsDecimalPoint | app.py:99 | `"P 1,5"` reads as 1.5 |
| PriceText.ThousandsSeparatorQuirk | app.py:97-100 | `"$1.25,5"` reads as 1.25: the first separator is the decimal point and the rest is dropped |
| SizeColors.CollectSizes | app.py:173-177 | the sizes loop keeps the non-empty header texts, in order, repeats included |
| SizeColors.NonEmpty | app.py:176 | the kept headers are exactly the non-empty ones |
| SizeColors.MarkAllSizes | app.py:194-198 | the inner loop gives the colour a new row with every size `True` and leaves the other rows alone |
| SizeColors.ColorsOfFacts | app.py:190-193 | the colour list has no repeats, holds exactly the non-empty labels, and keeps their order of first appearance |
| SizeColors.ExtractSizesAndColors | app.py:155-206 | no table gives the empty matrix; otherwise sizes are the non-empty headers after the corner, or `["UNICO"]` when there are none; colours are the deduplicated non-empty labels; availability has exactly the colours as keys, each with every size `True` |
| SizeColors.FullRowsAllAvailable | app.py:194-198 | a full row per colour marks every (colour, size) cell available |
| Scraper.ExtractName | app.py:45-70 | the name is the stripped description value when non-blank; else the first non-blank heading, in selector order; else "Producto Paulina Mayorista"; it is never empty |
| Scraper.ExtractPrice | app.py:72-106 | the hidden input's price when it parsed; else the price of the first text, in selector-then-document order, that shows one; else 0 |
| Scraper.NoPriceMeansZero | app.py:92-106 | with no hidden price and no price-looking text the price is 0 |
| Scraper.ExtractImage | app.py:108-153 | the first non-blank gallery `src`, made absolute; else the first page image passing the product-photo filter, made absolute; else none |
| Scraper.PageImageChosen | app.py:139-150 | the first image with `uploads/products/` in its `src` and none of `thumb`, `small`, `mini` in its lower-cased `src` is the one chosen |
| Scraper.ScrapeProduct | app.py:22-43 | a failed fetch is the error result and only a failed fetch is; otherwise the record carries the URL and the name, price and image each chain chooses, and the matrix's sizes and colours as extracted (the empty matrix without a table); the availability keys are exactly the colours, each with a row marking every size `True` |
| Layout.FitRatio | app.py:419 | the scale factor is non-negative |
| Layout.ResizeProductImage | app.py:413-424 | the resized photo lies inside the target box and fills it along one side; it shrinks when the box is smaller on some side, and otherwise never shrinks |
| Layout.ResizeKeepsAspect | app.py:419-422 | truncation moves the aspect ratio by less than one pixel: `-h < W*h - H*w < w` |
| Layout.CalculateLayout | app.py:373-411 | the canvas is exactly `max(800, w+100)` x `max(600+t, h+200+t)` for a photo over 800x600, 800 x `600+t` for one under 300 on a side, and `w+100` x `h+200+t` otherwise (`t` the reserved table height); the product box lies inside the canvas minus 100 across and `200+t` down and is never larger than the image; it is the image itself when that fits, and otherwise the image resized into that room, filling one side; it is centred by floor division with at least 50 px each side, and `y = 50` |
| Layout.LayoutKeepsAspect | app.py:393-402 | the product box keeps the photo's aspect ratio to within a pixel: `-h < W*h - H*w < w` |
| Layout.LargePhotoKeepsItsSize | app.py:382-402 | a photo over 800x600 is never scaled; the canvas grows around it |
| Layout.ScalingOnlyForNarrowPhotos | app.py:382-402 | only a photo no larger than 800x600, under 300 px on some side, and wider than 700 or taller than 400 is scaled down |
| Layout.LargePhotoExample | app.py:382-406 | a 1200x900 photo without a table gets a 1300x1100 canvas and keeps its size at x = 50 |
| TableDrawing.TableBox | app.py:296-316 | table width `150 + 80*len(sizes)`, top 20, height `(len(colors)+1)*30`, left edge centred by floor division |
| TableDrawing.DrawnTableHeight | app.py:284-286 | the value returned is 0 exactly when sizes or colours are empty, and otherwise the table height plus 10 |
| TableDrawing.ColorLabel | app.py:347 | names of up to 18 characters are shown whole; longer ones as their first 18 characters and "..." |
| TableDrawing.IsAvailable | app.py:356 | a missing colour or size reads as unavailable; a present one reads its stored flag |
| TableDrawing.CellsInsideTable | app.py:321-364 | every cell drawn lies inside the table rectangle, and neighbouring cells abut |
| TableDrawing.TableInsideCanvas | app.py:302-305 | a canvas at least as wide as the table holds it horizontally |
| TableDrawing.DrawnWithinReserved | app.py:367 | the returned height and the height `calculate_layout` reserved vanish together, and the returned one is `5*rows + 40` smaller |
| TableDrawing.ScrapedTableAllAvailable | app.py:356 | for a scraped matrix every cell shows the available mark |
| Composition.ComposeProductImage | app.py:229-273 | the canvas, the box and the photo's x are those `calculate_layout` plans, and the table height is the one `draw_sizes_colors_table` returns; the photo is the image resized into the planned box; it keeps 50 px on both sides and ends at least 150 px above the canvas bottom; it sits 40 px below the drawn table, or at 50 with no table; it is no larger than the box or the original; the texts start 30 px below the planned box (so at least 30 px below the photo and at least 120 px above the bottom) |
| Composition.TruncatedPhotoExample | app.py:256-273 | a 251x599 photo without a table gets a 167x400 box and is pasted at 167x398; the texts start at 480, from the box, not at 478 |
| Composition.NativePhotoUnscaled | app.py:256-259 | a photo whose planned box is its own size is pasted at its own size |
| Pricing.Ceil | app.py:574 | `math.ceil`: the least integer at or above the value |
| Pricing.RoundToNearest | app.py:565-574 | multiple 0 returns the number; otherwise the result is a multiple within one step, `number <= r < number + m` for positive `m` |
| Pricing.RoundUpIsLeastMultiple | app.py:572-574 | rounding up gives the least multiple at or above the number |
| Pricing.RoundUpKeepsMultiples | app.py:572-574 | a number that is already a multiple is returned unchanged |
| Pricing.RoundUpMonotone | app.py:572-574 | rounding up to a fixed multiple keeps the order of two numbers |
| Pricing.RoundingMultiple | app.py:537-561 | the tier multiple is 100, 500 or 1000 |
| Pricing.TierSelection | app.py:537-561 | a 55 % formula always rounds to 500; otherwise above 50000 to 1000, up to 10000 to 100, and 500 in between (thresholds strict) |
| Pricing.SmartRoundPrice | app.py:530-563 | the rounded price is at least the price, less than one tier multiple above it, a multiple of its tier and always a whole number of hundreds |
| Pricing.SmartRoundMonotone | app.py:530-563 | for a fixed formula a higher price never gets a lower rounded price |
| Pricing.FallbackIsNot55Percent | app.py:528 | the fallback formula "x * 1.3" never selects the 55 % tier |
| Pricing.CalculatePrice | app.py:514-528 | an evaluated formula's value is rounded up to a multiple of its own tier, less than one multiple above it; a failed one falls back to `original * 1.3` rounded under "x * 1.3", less than 1000 above it; the result is always a whole number of hundreds |
| Pricing.MidPriceExample | app.py:551-554 | 12345 rounds to 12500 |
| Pricing.HighPriceExamples | app.py:545-548 | 60000 stays 60000 and 60001 rounds to 61000 |
| Pricing.ThresholdExamples | app.py:545-561 | exactly 50000 is in the 500 tier and exactly 10000 in the 100 tier |
| Pricing.SurchargeExample | app.py:537-543 | "x * 1.55" selects 500 even above 50000 |
| TextWrap.WrapText | app.py:618-658 | the loop as written, taking the cut line's rest from after the first occurrence of the overflowing word, computes `WrapWith(_, _, FirstOccurrence)`, whose promises `WrapFacts` states |
| TextWrap.WrapFacts | app.py:618-658 | for the code as written and for the intended rule alike: a text of 25 characters or fewer comes back unchanged as one string; otherwise at most three lines; without a cut the lines joined by spaces are the words joined by spaces; with a cut the first two hold the text before some word and the third is the rule's remainder from that word, cut to 15 characters plus "..." when longer; each of the first two lines fits `len*8 <= max_width` or is one word; the lines are greedy: a first line followed by another holds the first `k1` words and would not fit with word `k1` added, and a cut second line would not fit with the cut word added; one line is returned as a string |
| TextWrap.WrapContinuesAfterCut | app.py:644 | with the intended rule, a cut name's third line is exactly the text the first two leave over, capped: no word is lost or repeated |
| TextWrap.FillFacts | app.py:628-652 | from any reachable loop state (a committed first line being the first `k1` words, which could not take word `k1`), under either rule, the remaining loop ends in an outcome as above, greediness included |
| TextWrap.RemainderRulesAgree | app.py:644 | when the overflowing word did not occur earlier, `words.index(word)` is the current position |
| TextWrap.FirstOccurrenceRepeatsWords | app.py:644 | with the name "aaaa bbbb aaaa cccc dddd eeee" and width 40, the code as written makes the third line "aaaa bbbb aaaa ..."; continuing from the current word gives "aaaa cccc dddd ..." |
| TextWrap.RepeatedFirstWordRestarts | app.py:644 | when the overflowing word repeats the first word, the remainder as written restarts from the beginning of the name |
| Download.SafeName | app.py:747 | each character outside `[\w\-_.]` becomes `_`; the others stay; the length is kept |
| Download.SafeNameIdempotent | app.py:747 | sanitising twice is sanitising once |
| Download.SafeNameKeepsSafeNames | app.py:747 | a name made only of kept characters is unchanged |
| Download.DownloadFilename | app.py:747-748 | the file name is "producto_" + the sanitised name + ".jpg", and holds no path separator |

## Left out

- HTTP fetching, timeouts and content-type checks (`requests`), and the image download in
  `get_product_image`, with its 400x400 placeholder. These are network I/O. The scraper
  takes the fetched page as `Option<Page>`, and the composition takes the photo's size.
- BeautifulSoup parsing and CSS selector matching. These are foreign library calls. Their
  results are inputs: the description value, the heading texts, the hidden price, the
  price texts, the gallery and page image sources, and the table's header and span texts.
- `float()` of the hidden price input is an input too (`None` when it fails).
- `eval` of the price formula, and the `str(float)` substitution into it. This is
  arbitrary Python evaluation. `CalculatePrice` takes its outcome as `Option<real>`.
- Floating point. Everything is exact `real`, so the model does not capture float
  artefacts: a price such as 0.1+0.2, or a ratio landing one pixel lower at an exact fit.
- The `round_up=False` branch of `round_to_nearest`. No caller uses it.
- All PIL work: canvas creation, rectangles, text, fonts (`load_fonts`), LANCZOS
  resampling, JPEG encoding, and `create_placeholder`.
- `draw_texts` beyond where the texts start. The price string format and the text
  positions below the first line are drawing details. The model does not claim that the
  name and price fit the canvas: `draw_texts` places the price 35 px per name line plus
  20 px below the text start (app.py:597-606). A 400x500 photo without a table gets a
  500x700 canvas, texts from 580, and with a three-line name the price at 705.
- Flask routes, JSON responses, image ids, and start-up from environment variables. Only
  the download file name is modelled.
- Logging (`print`).
- The `try/except` blocks around the selector loops. No exception arises in the modelled
  logic.
- The inner `startswith('/')` check at app.py:222 is dead code: the branch at app.py:212
  already took every such source. The model has the three reachable outcomes.
- Python's non-ASCII whitespace (such as U+0085, U+00A0 and U+2000 to U+200A), and
  Unicode `\d`, `\w` and case mapping. The model uses ASCII only.
  `Download.SafeName` keeps only ASCII letters and digits as `\w`, while Python also keeps
  accented letters.
- Layout.CalculateLayout and Composition.ComposeProductImage require positive image
  sizes. PIL images always have them, and the ratio would divide by zero otherwise.

## Findings

| source | as written | input that shows it | evidently intended | confidence | as-written member | corrected member |
|---|---|---|---|---|---|---|
| app.py:644 | the capped third line continues from `words.index(word) + 1`, which is after the word's FIRST occurrence | name "aaaa bbbb aaaa cccc dddd eeee", max_width 40: the third line is "aaaa bbbb aaaa ..." and repeats text already shown | continue after the current word, giving "aaaa cccc dddd ..." | not executed | TextWrap.FirstOccurrenceRepeatsWords | TextWrap.WrapContinuesAfterCut |

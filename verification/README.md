# Meritage Homes scraper: the rules behind the records

The scraper has two programs. `get_meritage_api_links.py` walks the home
page of meritagehomes.com and its city pages and collects the addresses of
the community pages. `get_meritage_page.py` turns each community page into
a JSON record. The record holds the community's images, the bed, bath and
story ranges, the quick-move-in homesites and the home plans. The scraper
also visits each homesite's and each plan's own page.

Around the browser, the HTML parser and the files sit small, deterministic
rules. They decide what ends up in the records and the links file. This
project models those rules in Dafny and proves what they guarantee. A
parsed page is given as plain datatypes: a slide, a column with its heading
and value, a list of feature items, the hrefs of anchors. Fetching a page
that can fail is an `Option`, where None means the fetch raised.

Modules, one file each:

| module | file | what it holds |
|---|---|---|
| `Options` | options.dfy | `Option`, and the first present value of a sequence |
| `Text` | text.dfy | `strip`, `split`/`join`, `lower`, `str(n)`, `int(t)` on ASCII text |
| `Patterns`, `Regex` | patterns.dfy, regex.dfy | the character classes, and a leftmost-match search for the fixed patterns the scraper uses |
| `Extractors` | extractors.dfy | `extract_price`, `extract_sqft`, `extract_beds_baths`, the row-detail patterns, the `daddr=` parse |
| `Urls` | urls.dfy | origin prefixing, `split('/')[-1]`, the city-page file name |
| `Images` | images.dfy | image sources, slide shows, the random image fallback |
| `Columns` | columns.dfy | the labelled-column lookups |
| `Features` | features.dfy | included features and their section indexes |
| `Floorplans` | floorplans.dfy | floor names and floor-plan entries |
| `Rows` | rows.dfy | heading, link, beds, baths and area of a row |
| `Homesites` | homesites.dfy | homesite rows: address, name, id, overview, coordinates |
| `Homeplans` | homeplans.dfy | plan rows and what a plan page adds |
| `Community` | community.dfy | one community record |
| `Output` | output.dfy | the record file name and the skip-if-exists batch |
| `Discovery` | discovery.dfy | city links, community links, and the end of `main` |

## Model

| member | source | states |
|---|---|---|
| Extractors.ExtractPrice | get_meritage_page.py:40-45 | None exactly when no `$` is followed by a digit or comma, so also for empty text; a result is a `$` and one or more digits and commas, and is the leftmost such token of the text |
| Extractors.PriceAttempt | get_meritage_page.py:44-45 | an attempt of `\$[\d,]+` at a position succeeds exactly when a `$` and a digit or comma sit there, and its match is the `$` with the whole run of digits and commas after it |
| Extractors.ExtractSqft | get_meritage_page.py:57-62 | None for empty text and exactly when no number, optional whitespace, "sq", optional whitespace and "ft" occur in the lower-cased text; a result has only digits and comes from the leftmost such phrase |
| Extractors.ExtractSqftOfPhrase | get_meritage_page.py:57-62 | a number written before " sq ft", after any text with no digit or comma in it, is read back without its commas, whatever the case of the letters around it |
| Extractors.ExtractSqftCommasOnly | get_meritage_page.py:61-62 | a "number" of commas only gives the empty string, not None |
| Extractors.ExtractSqftDigits | get_meritage_page.py:57-62 | the corrected extractor: a result is non-empty and only digits, and agrees with `extract_sqft` whenever that result is non-empty |
| Extractors.ExtractSqftDigitsOfPhrase | get_meritage_page.py:57-62 | a number with at least one digit, written before " sq ft" after any text with no digit or comma in it, is read back without its commas |
| Extractors.ExtractSqftDigitsCommasOnly | get_meritage_page.py:61-62 | on a number of commas only, the corrected extractor reports None |
| Extractors.ExtractBedsBaths | get_meritage_page.py:47-55 | both counts None for empty text; otherwise each is None exactly when its pattern matches nowhere; the bed count is the whole run of digits where the leftmost bed match starts; the bath count is the number the leftmost bath match captures, read with its fraction as far as it goes |
| Extractors.FindBeds | get_meritage_page.py:51-53 | None exactly when a count, optional whitespace and "Bedroom", "Bed" or "BR" occur nowhere; otherwise the whole run of digits where the leftmost such match starts |
| Extractors.FindBaths | get_meritage_page.py:52-54 | None exactly when the pattern matches nowhere; otherwise a whole or decimal number that occurs where the leftmost match starts and that is followed neither by a digit nor, when it has no fraction, by a dot and a digit |
| Extractors.BathsCaptureUnique | get_meritage_page.py:52-54 | that description fixes the bath count: two numbers meeting it are the same, so for "2.5 Bath" the count is "2.5" and never "2" |
| Extractors.FindBathsOfPhrase | get_meritage_page.py:52-54 | a count, with or without a fraction, written before " Bath", " BA" or " Bathroom" after any text with no digit in it, is read back whole |
| Extractors.FindBedsOfPhrase | get_meritage_page.py:51-53 | a count written before " Bedroom", " Bed" or " BR" after any text with no digit in it is read back |
| Extractors.NoBedsWithoutCapital | get_meritage_page.py:51 | every unit word starts with a capital B, so a text without one has no bedroom count |
| Extractors.BedsCaseSensitive | get_meritage_page.py:51-55 | "3 bed" in lower case gives no bedroom count |
| Extractors.CountAfter | get_meritage_page.py:245-246 | None exactly when the word, whitespace and digits occur nowhere; otherwise the whole run of digits after the word and its whitespace in the leftmost match, so non-empty digits |
| Extractors.CountAfterOfPhrase | get_meritage_page.py:245-246 | a count written after its word and some whitespace, anywhere in the text, is read back, provided the word does not occur earlier |
| Extractors.ApproxArea | get_meritage_page.py:247 | None exactly when "Approx. N sq. ft." occurs nowhere; otherwise the whole run of digits and commas that is the N of the leftmost match |
| Extractors.ApproxAreaOfPhrase | get_meritage_page.py:247 | the N of "Approx. N sq. ft.", anywhere in the text, is read back with its commas, provided "Approx." does not occur earlier |
| Extractors.ParseDaddr | get_meritage_page.py:287-290 | None exactly when no `daddr=` parameter with two coordinates occurs; otherwise two runs of digits, '-' and '.' such that the leftmost match is `daddr=lat,lon` and the longitude runs up to the end of the link or a character outside `[-\d.]` |
| Extractors.ParseDaddrOfLink | get_meritage_page.py:287-290 | the latitude and longitude written in a map link are read back exactly, when no `daddr=` starts earlier in the link and the longitude is not followed by more `[-\d.]` |
| Urls.Absolutise | get_meritage_api_links.py:62-63 | the result starts with "http"; an href starting with "http" is unchanged; any other href is the origin followed by the href |
| Urls.AbsolutiseFixed | get_meritage_api_links.py:105-106 | an href is unchanged exactly when it starts with "http", so making it absolute twice changes nothing more |
| Urls.AbsolutiseInjective | get_meritage_api_links.py:62-63 | two relative hrefs give the same link only when they are equal |
| Urls.PrefixOrigin | get_meritage_page.py:250 | the row link is the origin followed by the href, whatever the href |
| Urls.PrefixOriginAgrees | get_meritage_page.py:342 | unconditional prefixing agrees with the conditional one exactly on relative hrefs |
| Urls.LastSegmentOf | get_meritage_page.py:69 | `split('/')[-1]` is the slash-free tail after the last slash |
| Urls.PageFilename | get_meritage_api_links.py:90 | the city page's file name is never empty and holds no '/'; an address of slashes only gives "index" |
| Urls.PageFilenameOf | get_meritage_api_links.py:90 | an address ending in a segment and any trailing slashes is saved under that segment |
| Images.ResolveKeep | get_meritage_page.py:259-264 | a non-empty relative source becomes the origin followed by the source; a non-empty absolute one is kept as it is; an empty or missing one is kept as read |
| Images.ResolveKeepIdempotent | get_meritage_page.py:372-376 | resolving a resolved source changes nothing |
| Images.FirstImage | get_meritage_page.py:156-167 | at most one image; one exactly when the first slide's lazy span has a non-empty relative source, and then it is that source made absolute |
| Images.SlideImage | get_meritage_page.py:306-318 | a non-empty hidden lazy source always gives an image: kept when absolute, else the origin followed by it; otherwise an image exactly when the orbit image has a non-empty, relative source that is not the loading placeholder, and then it is the origin followed by that source |
| Images.SlideImages | get_meritage_page.py:303-318 | the gallery is, in slide order, the image of every slide that gives one and nothing else; all are absolute |
| Images.SlideImagesMembers | get_meritage_page.py:303-318 | an image is in the gallery exactly when some slide gives it |
| Images.CandidatesEmpty | get_meritage_page.py:492-505 | there is no fallback candidate exactly when no plan has a non-empty image and no homesite has a non-empty image or gallery images |
| Images.Fallback | get_meritage_page.py:491-510 | existing images are kept; otherwise the result is empty exactly when there is no candidate, and else it is one candidate |
| Images.FallbackCanChooseAny | get_meritage_page.py:508-509 | every candidate is chosen for some value of the random pick |
| Columns.FirstHeadingValue | get_meritage_page.py:188-212 | the value of the first column headed with the title, even when that column has no value; None when no column has the heading |
| Columns.FirstAnswer | get_meritage_page.py:432-438 | None exactly when no column has both the heading and a value; otherwise the value of the first that does |
| Columns.LookupsAgree | get_meritage_page.py:188-212 | when the first headed column has a value, both lookups give it |
| Columns.LookupsDiffer | get_meritage_page.py:188-194 | a headed column without a value, then one with a value: the community lookup gives None, the half-bath lookup the value |
| Columns.Stories | get_meritage_page.py:442-474 | the story count of the first headed column whose value `int()` accepts; None when no column gives one |
| Text.Strip | get_meritage_page.py:418 | the result neither starts nor ends with whitespace, the text is the result with only whitespace around it, and the result is empty exactly when the text is all whitespace |
| Text.ParseInt | get_meritage_page.py:448 | a value exactly when the text is digits grouped by single underscores, optionally after one sign; a negative value comes only from a leading '-' |
| Text.ParseIntRoundTrip | get_meritage_page.py:448 | `int(str(i)) == i` |
| Features.DescriptionsAre | get_meritage_page.py:414-419 | the descriptions are, in order, the stripped text of every non-blank item of every list section, and nothing else; the item count is the number of those items |
| Features.IncludedFeatures | get_meritage_page.py:399-427 | one feature per description, in order, with that description; no more features than list items |
| Features.IncludedFeaturesIndex | get_meritage_page.py:407-427 | the section index of the k-th feature is `min(k // share, 3)`, where the share is `total // 4` with 0 acting as 1 |
| Features.IncludedFeaturesIndexes | get_meritage_page.py:410-427 | every index lies in 0..3, the first is 0, and consecutive indexes never go down and rise by at most one |
| Features.BucketShares | get_meritage_page.py:426-427 | with a share of at least one, indexes 0, 1 and 2 each hold exactly the positions of one share and index 3 holds the rest |
| Features.TenFeatures | get_meritage_page.py:408-427 | ten stripped, non-blank items in one list get the indexes 0,0,1,1,2,2,3,3,3,3 |
| Features.ThreeFeatures | get_meritage_page.py:408-427 | three items give the share 0, and the index moves on with every feature: 0,1,2 |
| Floorplans.FloorName | get_meritage_page.py:451-458 | every name ends in " Floor Floorplan"; floors 1, 2 and 3 are "1st", "2nd" and "3rd"; every later floor is its decimal number followed by "th" |
| Floorplans.TwentyFirstFloor | get_meritage_page.py:451-458 | floor 21 is named "21th Floor Floorplan" |
| Floorplans.FloorNamesDistinct | get_meritage_page.py:451-458 | different floors get different names |
| Floorplans.PanelImage | get_meritage_page.py:461-467 | an image exactly when the tabs, the first panel, its image and a non-empty source exist; the image is then that source as read, not resolved |
| Floorplans.FloorplanImages | get_meritage_page.py:447-473 | no entries for a rejected count, a count below 1 or no image; otherwise n entries named after floors 1 to n in order, all with the same image |
| Floorplans.FloorplanImagesDistinct | get_meritage_page.py:450-471 | no two entries share a name, and all show the same image |
| Floorplans.PlanFloorplans | get_meritage_page.py:440-474 | no entries when no column gives a count, when the tabs show no image, or when the first count given is below 1; otherwise as many entries as that count, the k-th named after floor k and showing the panel's image |
| Rows.TitleLink | get_meritage_page.py:250 | a link exactly when the heading has an anchor, and it is the origin followed by the href |
| Rows.RowBeds | get_meritage_page.py:245 | a value exactly when there are details and "Bed", whitespace and digits occur in them; it is the leftmost such count followed by "bd" |
| Rows.RowBaths | get_meritage_page.py:246 | a value exactly when there are details and "Bath", whitespace and digits occur in them; it is the leftmost such count followed by "ba" |
| Rows.RowArea | get_meritage_page.py:247 | a value exactly when there are details and "Approx. N sq. ft." occurs in them; it is the leftmost N, commas kept, followed by " ft²" |
| Rows.RowBedsOfPhrase | get_meritage_page.py:345 | "Bed", whitespace and a count anywhere in the details give the count with "bd", provided "Bed" does not occur earlier |
| Rows.RowBathsOfPhrase | get_meritage_page.py:346 | "Bath", whitespace and a count anywhere in the details give the count with "ba", provided "Bath" does not occur earlier |
| Rows.RowAreaOfPhrase | get_meritage_page.py:348 | "Approx. N sq. ft." anywhere in the details gives N with " ft²", provided "Approx." does not occur earlier |
| Homesites.ShapeAddress | get_meritage_page.py:236-238 | None exactly when there is no paragraph or it is blank; otherwise non-empty, with no leading, trailing or repeated whitespace, and holding the same words as the paragraph |
| Homesites.StripPostal | get_meritage_page.py:241 | the name is normalised and is either the address or the address less a final space and exactly five digits |
| Homesites.StripPostalOf | get_meritage_page.py:241 | an address ending in a space and a five-digit code is named without them |
| Homesites.StripPostalKeeps | get_meritage_page.py:241 | an address without such an ending is its own name |
| Homesites.SixDigitsKept | get_meritage_page.py:241 | six final digits are not a postal code and stay in the name |
| Homesites.Overview | get_meritage_page.py:294-300 | None exactly when no paragraph qualifies; otherwise the stripped text of the first paragraph that does not open with "Plan #" and mentions neither "Estimated Completion" nor "Home Address" |
| Homesites.WithPage | get_meritage_page.py:281-318 | the page changes only the coordinates, the overview and the images; the coordinates are those the article's map link gives, or are kept; the overview is the article's first qualifying paragraph, or is kept; the images are the slide show's |
| Homesites.ShapeHomesite | get_meritage_page.py:231-318 | a row exactly when the block has a middle part; its id is the block's number; its address is normalised; without a link nothing from the row's page is added; every image is absolute |
| Homesites.ShapeHomesites | get_meritage_page.py:229-334 | no homesites without the quick-move-in section; otherwise at most one per block; every image absolute |
| Homesites.HomesitesFrom | get_meritage_page.py:231-243 | the homesites are, in block order, the row of every block that gives one and nothing else; the row of block k (from 0) has the id str(start + k + 1); ids are decimal numbers, strictly increasing and within the block numbers; all images are absolute |
| Homesites.HomesiteIdsDistinct | get_meritage_page.py:231-243 | no two homesites share an id |
| Homesites.SkippedBlockShiftsIds | get_meritage_page.py:231-243 | a block without a middle part still uses up its number: the next homesite gets id "2" |
| Homeplans.PlanImage | get_meritage_page.py:357-376 | no image box, a script without a captured source or a box without an image tag give None; otherwise the captured or tag source resolved as in `ResolveKeep`, so a non-empty image is absolute |
| Homeplans.WithPage | get_meritage_page.py:394-474 | the plan page changes only the features, the half-bath count and the floor plans, and sets them to the page's included features, its first half-bath answer and its floor-plan entries |
| Homeplans.ShapePlan | get_meritage_page.py:338-489 | status "Actively selling"; a link exactly when the heading has an anchor; without a link or a page, nothing from the page; section indexes at most 3 |
| Homeplans.ShapeHomeplans | get_meritage_page.py:338-488 | one plan per plan block, in block order, each the shape of its block |
| Community.Scrape | get_meritage_page.py:156-510 | at most one image: the slide show's when it gives one, else the fallback over the plans' and homesites' images; always absolute; the bed, bath and story ranges are the first headed columns' values; the homesites and plans are those of their blocks |
| Community.ScrapeImages | get_meritage_page.py:156-510 | the record has no image exactly when the slide show gives none and no plan or homesite offers a candidate; a fallback image is one of the candidates |
| Community.ScrapeCanShowAny | get_meritage_page.py:491-510 | when the slide show gives no image, every candidate is the record's image for some random pick |
| Community.FallbackAbsolute | get_meritage_page.py:491-505 | every fallback candidate is absolute |
| Output.JsonFile | get_meritage_page.py:69-70 | the record file is the directory's `json/meritage_` prefix, the last segment of the address and ".json", so the segment can be read back out of the name |
| Output.JsonFileShared | get_meritage_page.py:69-70 | two pages share a record file exactly when their addresses end in the same segment |
| Output.Batch | get_meritage_page.py:575-582 | the files that existed are kept, and every page visited is a link of the batch, with no more visits than links; Output.BatchVisits pins the visited list exactly |
| Output.BatchFiles | get_meritage_page.py:512-514 | after a batch the files are those that existed plus the record file of every page that reached the save |
| Output.BatchVisits | get_meritage_page.py:575-582 | the visited pages are, in order, exactly the links the loop reaches while their record file is absent, that is, it neither existed nor was saved for an earlier link |
| Output.BatchVisitsNew | get_meritage_page.py:72-75 | a page is visited only when its record file did not exist at the start, and every link the loop reaches while its record file is absent is visited |
| Output.BatchSettled | get_meritage_page.py:575-582 | over files that hold every record a run could save, the run writes nothing and visits only pages that fail |
| Output.BatchRerun | get_meritage_page.py:575-582 | a second batch saves nothing new and visits only the pages that failed |
| Output.SameNameSkipped | get_meritage_page.py:69-75 | of two pages with the same last segment, the second is skipped once the first is saved |
| Discovery.Resolved | get_meritage_api_links.py:59-63 | at most one link per href, and every link is absolute |
| Discovery.ResolvedMembers | get_meritage_api_links.py:59-63 | a link is resolved exactly when some non-empty href makes it; empty and missing hrefs give nothing |
| Discovery.Dedup | get_meritage_api_links.py:64-65 | no duplicates, and the same links as the input |
| Discovery.DedupOrder | get_meritage_api_links.py:64-65 | links keep the order in which they were first seen |
| Discovery.DedupDistinct | get_meritage_api_links.py:64-65 | links that are already distinct are kept as they are |
| Discovery.CollectLinks | get_meritage_api_links.py:58-66 | the city-link loop yields distinct links that are exactly the resolved non-empty hrefs, in first-seen order |
| Discovery.CityLinks | get_meritage_api_links.py:39-73 | no links when loading the home page fails; otherwise distinct, absolute links that are exactly the resolved non-empty hrefs of the page, in the order each was first seen |
| Discovery.CommunityLinks | get_meritage_api_links.py:83-115 | distinct, absolute links that are exactly the resolved hrefs of the city pages that loaded |
| Discovery.CommunityLinksUnion | get_meritage_api_links.py:83-115 | the links of a list of city pages are the union of the links of its parts |
| Discovery.FailedPageAddsNothing | get_meritage_api_links.py:85-113 | a failing city page adds no links and does not stop the pages after it |
| Discovery.Discover | get_meritage_api_links.py:122-142 | stops exactly when there are no city links; stops exactly when there are city links but no community links; a written file holds distinct, absolute links |
| Discovery.NoCitiesNoPages | get_meritage_api_links.py:128-130 | without city links, which city pages would load makes no difference |
| Discovery.LinksFileContents | get_meritage_api_links.py:133-142 | the written links are exactly the resolved hrefs of the city pages that loaded |

## Left out

- Selenium, page loading, `time.sleep` and `driver.quit` are browser I/O. A page that cannot be loaded is an `Option` that is None.
- HTML and JSON file writes and the deletion of temporary HTML files are file-system I/O. Only the skip-if-exists decision is modelled, over a set of existing file names.
- BeautifulSoup is not modelled. Each page is given as the fragments the scraper reads.
- The logging, `argparse` mode selection and the search for `meritage_links.json` in several places are left out. Only the batch loop over the links is modelled.
- Whitespace is the ten ASCII characters Python treats as whitespace in `str.split`, `strip` and `\s`: 0x09 to 0x0D, 0x1C to 0x1F and the space. Unicode spaces and non-ASCII digits are left out, and `lower()` is modelled on ASCII letters only. No extractor result depends on the latter: no non-ASCII character lower-cases to 's', 'q', 'f' or 't'.
- `re.search` is modelled for the fixed patterns the scraper uses, not as a general regex engine.
- The lazy-load script pattern `<img[^>]*src="([^"]*)"` (get_meritage_page.py:363) is not modelled. The plan image box takes the captured source as given, or None when the script holds no such tag. A script whose `string` is None, which makes `re.search` raise, is left out.
- The community fields `name`, `address`, `description`, `location` and `nearbyplaces` (get_meritage_page.py:129-173, 214-226) are plain element lookups and are left out.
- Two community fields read by patterns over the page's whole text are left out as well. `price_from` and `price_range` come from `Starting at\s+(\$[\d,]+)`, wrapped as "From " and the amount (get_meritage_page.py:134-139). `sqft_range` comes from the `Approx. Sq. Ft.` range pattern at line 179. Neither pattern is modelled.
- Community.Scrape: a `community-detail-overview` without an `article` makes the name lookup at get_meritage_page.py:129 raise. The handler at line 519 then returns None and no record is saved. Scrape always returns a record. Pages that fail this way are covered in Output.Batch, where the set `ok` leaves them out.
- An exception inside a row's page after part of the page was read is not modelled: a row's page either loads whole or not at all. The one exception that matters, a `tabs-content` without a `tabs-panel`, is modelled as no floor-plan entries; the features and half-bath count read before it are kept.
- An anchor that has a heading but no `href` raises a KeyError in the source (get_meritage_page.py:250, 342). It is modelled as an anchor whose href is present.
- Discovery.CommunityLinks: `list(set(...))` returns the links in an unspecified order. The model returns them in first-seen order, and its contract promises only distinctness and membership.
- `random.choice` is the parameter `pick`; the model takes the candidate at `pick % n`.
- Output.Batch: whether a page reaches the save is a parameter (the set `ok`), not derived from the page.
- An exception in `setup_driver`, in `get_city_links` (get_meritage_api_links.py:39) or for the community links, propagates to `main`, which logs it and ends without a links file. This path is not modelled.

## Findings

| source | as written | input that shows it | evidently intended | confidence | as-written member | corrected member |
|---|---|---|---|---|---|---|
| get_meritage_page.py:57-62 | `([\d,]+)` also matches a run of commas only, and removing the commas then leaves the empty string | `",sq ft"` gives `""` instead of None | a square footage holds at least one digit, and text without one gives None; the corrected extractor still reads only the leftmost phrase, so it gives None when that phrase holds only commas even if a later one has digits (`",sq ft 1,200 sq ft"`) | not executed | Extractors.ExtractSqftCommasOnly | Extractors.ExtractSqftDigits |

## Notes on the source

- The community lookups for bedrooms, full bathrooms and stories stop at the first column with the heading, even when it has no value. The half-bath lookup and the story count of a plan page keep searching until a column gives a value. The story count also keeps searching past a value that `int()` rejects.
- The first community image (get_meritage_page.py:164-166) and the orbit-image fallback of a homesite slide (316-318) are appended only inside the "relative" branch. An absolute source there is dropped, not kept; the model does the same.
- Homesite ids number every `qmi-vertical` block, including blocks that are skipped for lacking a middle part.
- The name's postal-code pattern `\s+\d{5}$` is applied to an address whose whitespace has been normalised, so the `$` before a final newline cannot arise.
- Floor-plan entries use the panel's source as read, without the origin.

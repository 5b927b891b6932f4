# Coloso crawler — a verified model

This project models the Coloso crawler of the lecture-aggregation service: the
crawler that builds one `ColosoCourse` per course page and turns those courses
into `Lecture` records. The model covers these steps:

- **`getCategories`**: reads the category tree; a null response is fatal.
- **`getCourses`**: walks main categories, then their direct children, then the
  items of each child's listing page. For each course URL it:
  - reads the JSON-LD product block (id, first offer, first price specification);
  - asks the course API for the supplementary record and uses the first one;
  - normalises the keywords and assembles the description from the three
    additional texts.
- **`convertCourses`**: drops repeated ids (first seen wins), maps each course's
  (main, sub) category pair through the taxonomy table (first match wins), drops
  unmapped courses, and builds a `Lecture` tagged `coloso`.
- **`ColosoCourse`**: the immutable value and its tab-separated `toString`.

Modules, one per file:

- `Wrappers` (`wrappers.dfy`): `Option` and `Result`.
- `Strings` (`strings.dfy`): the decimal rendering of a Java `long`, and joining,
  splitting and counting on a separator character.
- `Text` (`text.dfy`): the whitespace normaliser. In Java it is
  `replaceAll("\\s", " ").replaceAll(" {2,}", " ").trim()`. The module also
  models `Character.isWhitespace` and `StringUtils.hasText`.
- `Course` (`course.dfy`): the `ColosoCourse` datatype and `toString`.
- `Convert` (`convert.dfy`): `convertCourses`. It is a method with the seen-set
  loop, proved equal to a recursive specification. A second, reference reading
  with no seen-set ("the first course of each id whose categories map") is
  proved equal to it.
- `Crawler` (`crawler.dfy`):
  - `getCategories`, and the per-course extraction as a method proved against a
    specification function;
  - `getCourses` as loop methods proved against a recursive specification of
    the traversal;
  - `get`, which composes the three steps.

The network, the HTML selectors and the JSON decoder are not modelled. They are
the fields of a `Web` value, which is an input to the crawler:

- `listing`: gives a listing page's items, each the absolute `href` of its
  direct `<a>` child if it has one, or `None` when the page cannot be fetched.
- `coursePage`: gives a course page. The page is either rejected by
  `Jsoup.connect`, unreachable, or loaded, with the text of its first
  `application/ld+json` script if it has one.
- `decodeProduct`: gives the decoded product, or `None` when decoding throws.
- `courseApi`: gives the course API's result. The request either throws or
  returns a body that may be null.

The taxonomy enum is passed in as a sequence of 4-tuples, `TaxonomyEntry`.

Failures:

- The course page's `Jsoup.connect` (ColosoCrawler.java:105) and the course-API
  request (:147) are not inside a per-course `try`. When they fail, the
  exception reaches the subcategory's `catch` (:213-215). The model calls that
  outcome `Step.Aborted`: it ends the listing loop of that subcategory, keeps
  the courses already appended and continues with the next subcategory.
- Every other failure is a `Skipped` step: the URL adds nothing and the loop
  goes on.

Two details of the code:

- `toString` ends in a tab when the image URL is empty (`Course.ToStringLast`).
- The URL constants keep their double slash: `"https://coloso.co.kr/" + "/category"`.

## Model

| member | source | states |
|---|---|---|
| Strings.Decimal | src/main/java/com/example/crawler/coloso/ColosoCourse.java:22-25 | `Long.toString`: a minus sign exactly when the number is negative, then digits only, with no leading zero unless the number is zero; `Strings.DecimalRoundTrip` shows the digits are those of the absolute value |
| Strings.DecimalRoundTrip | src/main/java/com/example/crawler/coloso/ColosoCourse.java:22-25 | reading back the decimal numeral of a `long` gives the number itself, so `id` and `price` lose nothing when rendered |
| Strings.DecimalInjective | src/main/java/com/example/crawler/coloso/ColosoCrawler.java:262 | two ids have the same decimal rendering exactly when they are equal |
| Strings.JoinCount | src/main/java/com/example/crawler/coloso/ColosoCourse.java:22-31 | joining n separator-free parts writes exactly n - 1 separators |
| Strings.SplitJoin | src/main/java/com/example/crawler/coloso/ColosoCourse.java:22-31 | splitting at the separator undoes joining when no part contains it |
| Text.IsRegexSpace | src/main/java/com/example/crawler/coloso/ColosoCrawler.java:163 | Java's regex class `\s` as `replaceAll` uses it (also at :194): exactly space, tab, line feed, vertical tab, form feed and carriage return |
| Text.IsJavaWhitespace | src/main/java/com/example/crawler/coloso/ColosoCrawler.java:173 | `Character.isWhitespace`, which `StringUtils.hasText` uses: U+0009..U+000D, U+001C..U+0020 and the Unicode space, line and paragraph separators other than the non-breaking ones |
| Text.HasText | src/main/java/com/example/crawler/coloso/ColosoCrawler.java:173 | `StringUtils.hasText`: the text is present and some character of it is not Java whitespace |
| Text.ReplaceWhitespace | src/main/java/com/example/crawler/coloso/ColosoCrawler.java:163 | the first step keeps the length and leaves the space as the only `\s` character |
| Text.CollapseSpaces | src/main/java/com/example/crawler/coloso/ColosoCrawler.java:163 | the second step never leaves two spaces in a row, never lengthens the text, and keeps its first and last characters; what a run of spaces becomes after all three steps is stated by `Text.NormalizeStripsLeading`, `Text.NormalizeStripsTrailing` and `Text.NormalizeJoinsAny` |
| Text.CollapseFixesSingleSpaces | src/main/java/com/example/crawler/coloso/ColosoCrawler.java:163 | text with no run of spaces is left as it is by the second step |
| Text.JavaTrim | src/main/java/com/example/crawler/coloso/ColosoCrawler.java:163 | `trim` leaves no character at most U+0020 at either end, and keeps "only spaces" and "no double space" |
| Text.Normalize | src/main/java/com/example/crawler/coloso/ColosoCrawler.java:163 | the normaliser is the three steps in their order (also used at :194); it never lengthens the text |
| Text.NormalizeIsNormal | src/main/java/com/example/crawler/coloso/ColosoCrawler.java:163 | normalised text has no `\t\n\x0B\f\r`, never two consecutive spaces, and no character at most U+0020 at either end |
| Text.NormalizeFixesNormal | src/main/java/com/example/crawler/coloso/ColosoCrawler.java:194 | text already in that form is returned unchanged |
| Text.NormalizeIdempotent | src/main/java/com/example/crawler/coloso/ColosoCrawler.java:163 | normalising twice is normalising once |
| Text.NormalizeKeepsVisible | src/main/java/com/example/crawler/coloso/ColosoCrawler.java:194 | normalising removes or replaces only characters at most U+0020: every other character stays, in order |
| Text.NormalizeJoins | src/main/java/com/example/crawler/coloso/ColosoCrawler.java:163 | between two non-empty texts already in normal form, any run of `\s` characters, tabs and line breaks included, becomes exactly one space |
| Text.NormalizeStripsLeading | src/main/java/com/example/crawler/coloso/ColosoCrawler.java:163 | a run of `\s` characters (space, tab, line feed, vertical tab, form feed, carriage return) in front of a text makes no difference: the result is that of the text alone; other Java whitespace such as U+3000 is kept |
| Text.NormalizeStripsTrailing | src/main/java/com/example/crawler/coloso/ColosoCrawler.java:163 | a run of `\s` characters (space, tab, line feed, vertical tab, form feed, carriage return) after a text makes no difference: the result is that of the text alone |
| Text.NormalizeJoinsAny | src/main/java/com/example/crawler/coloso/ColosoCrawler.java:163 | after a non-empty word in normal form, any non-empty run of `\s` characters followed by a text that starts visibly becomes exactly one space, and the rest is normalized on its own |
| Text.NormalizePadded | src/main/java/com/example/crawler/coloso/ColosoCrawler.java:163 | two words in normal form with whitespace runs before, between and after them give the two words separated by one space |
| Text.NormalizeExample | src/main/java/com/example/crawler/coloso/ColosoCrawler.java:163 | `"  draw   illustration "` normalises to `"draw illustration"` |
| Course.ToString | src/main/java/com/example/crawler/coloso/ColosoCourse.java:21-32 | `toString`: id, title, instructor, price, main category, subcategory, description, keywords, url, image url, separated by tabs |
| Course.ToStringIsJoin | src/main/java/com/example/crawler/coloso/ColosoCourse.java:21-32 | `toString` is the ten fields joined by single tabs, in the order id, title, instructor, price, mainCategory, subCategory, description, keywords, url, imageUrl |
| Course.SplitToString | src/main/java/com/example/crawler/coloso/ColosoCourse.java:21-32 | with no tab inside a string field, splitting `toString` at tabs gives exactly ten pieces, piece i being field i's rendering in that order |
| Course.ToStringTabs | src/main/java/com/example/crawler/coloso/ColosoCourse.java:21-32 | with no tab inside a string field, `toString` holds exactly nine tabs and does not start with one |
| Course.ToStringLast | src/main/java/com/example/crawler/coloso/ColosoCourse.java:31 | `toString` ends with the image URL's last character, or with a tab when the image URL is empty |
| Convert.ToLecture | src/main/java/com/example/crawler/coloso/ColosoCrawler.java:257-272 | `new Lecture(...)`: the course's fields, the id and price rendered as decimals, the tag `coloso` and the taxonomy entry's converted pair |
| Convert.ConvertFrom | src/main/java/com/example/crawler/coloso/ColosoCrawler.java:231-275 | the recursive specification of the loop from a given seen-set: a course whose id is seen adds nothing; otherwise its id becomes seen and it adds its lecture when its categories map |
| Convert.Lectures | src/main/java/com/example/crawler/coloso/ColosoCrawler.java:222-278 | `convertCourses` from an empty seen-set |
| Convert.FindCategory | src/main/java/com/example/crawler/coloso/ColosoCrawler.java:247-250 | the lookup finds nothing exactly when no entry matches both original titles; what it finds is an entry of the table that matches |
| Convert.ConvertCourses | src/main/java/com/example/crawler/coloso/ColosoCrawler.java:222-278 | the seen-set loop returns the lectures of the recursive specification `Lectures` |
| Convert.LecturesDistinct | src/main/java/com/example/crawler/coloso/ColosoCrawler.java:226-235 | no two lectures share a source id, and there are never more lectures than courses |
| Convert.ConvertFromAppend | src/main/java/com/example/crawler/coloso/ColosoCrawler.java:228-275 | converting `a + b` is converting `a`, then `b` with the ids of `a` already seen, so input order is kept |
| Convert.IsFirstMeans | src/main/java/com/example/crawler/coloso/ColosoCrawler.java:226-235 | a course is first with its id, that is, its id is not yet in the seen-set, exactly when no earlier course has that id |
| Convert.LecturesAreKept | src/main/java/com/example/crawler/coloso/ColosoCrawler.java:226-274 | the output equals the reference reading: for each position in order, a lecture exactly when that course is the first with its id and its categories map |
| Convert.LecturesMembers | src/main/java/com/example/crawler/coloso/ColosoCrawler.java:231-274 | a lecture is in the output exactly when it is built from the first course of some id whose category pair maps, with the entry found |
| Convert.FirstSeenWins | src/main/java/com/example/crawler/coloso/ColosoCrawler.java:231-255 | a lecture carrying the id of a first occurrence is built from that occurrence, so a later duplicate never replaces it, even when the first is unmapped |
| Convert.LectureFields | src/main/java/com/example/crawler/coloso/ColosoCrawler.java:257-272 | a lecture is tagged `coloso`, its id and price are numerals that read back to the course's, its converted pair is the entry's, and every other field is the course's |
| Crawler.CategoryPageUrl | src/main/java/com/example/crawler/coloso/ColosoCrawler.java:87 | a subcategory's listing URL: the category-courses URL, a slash, and the subcategory id in decimal |
| Crawler.CourseApiUrl | src/main/java/com/example/crawler/coloso/ColosoCrawler.java:147 | the course API URL for a product id: the courses URL, `?id=`, and the id in decimal |
| Crawler.GetCategories | src/main/java/com/example/crawler/coloso/ColosoCrawler.java:49-58 | the categories are returned exactly when the request neither throws nor returns null, and they are the response's list |
| Crawler.AdditionalTexts | src/main/java/com/example/crawler/coloso/ColosoCrawler.java:167-171 | no texts when `extras` is null; otherwise `additionalText1`, `additionalText2` and `additionalText3`, in that order, each possibly null |
| Crawler.WithText | src/main/java/com/example/crawler/coloso/ColosoCrawler.java:172-189 | the kept texts are never more than the given ones and each has text |
| Crawler.WithTextMembers | src/main/java/com/example/crawler/coloso/ColosoCrawler.java:172-189 | a text is kept exactly when one of the additional texts has text and holds it |
| Crawler.AppendText | src/main/java/com/example/crawler/coloso/ColosoCrawler.java:172-189 | one `hasText` block: a text with text is appended, after a space when the builder already has text, which keeps the builder equal to the kept texts joined by single spaces |
| Crawler.Description | src/main/java/com/example/crawler/coloso/ColosoCrawler.java:166-196 | the specification of the description: the additional texts with text, joined by single spaces, then normalized |
| Crawler.BuildDescription | src/main/java/com/example/crawler/coloso/ColosoCrawler.java:166-196 | the `StringBuilder` code gives the additional texts that have text, in order, joined by one space and normalised; `""` when extras is null or no text has text |
| Crawler.JoinHasText | src/main/java/com/example/crawler/coloso/ColosoCrawler.java:173 | texts that each have text, joined, have text exactly when there is at least one, which decides the space before each append and the `hasText` guard on the description |
| Crawler.DescriptionExample | src/main/java/com/example/crawler/coloso/ColosoCrawler.java:166-196 | ("Learn the basics", "", "of digital art") gives "Learn the basics of digital art" |
| Crawler.CourseStep | src/main/java/com/example/crawler/coloso/ColosoCrawler.java:105-209 | the specification of one course URL: each check in the order of the code, with the step it ends in (abort, skip with its reason, or the course built) |
| Crawler.ReadCourse | src/main/java/com/example/crawler/coloso/ColosoCrawler.java:102-209 | one course URL yields the step of `CourseStep`; a built course carries the URL and both titles, and normalised keywords and description |
| Crawler.CourseStepBuilt | src/main/java/com/example/crawler/coloso/ColosoCrawler.java:130-208 | when every check passes, the course has id = productId, price = offers[0].priceSpecifications[0].price, title, instructor and image from courses[0], keywords normalised, description assembled |
| Crawler.CourseStepSkips | src/main/java/com/example/crawler/coloso/ColosoCrawler.java:105-143 | a page that `Jsoup.connect` rejects aborts the subcategory's listing; no course when the page cannot be read, has no ld+json script, does not decode, has no offer, or its first offer has no price specification |
| Crawler.CourseStepApiSkips | src/main/java/com/example/crawler/coloso/ColosoCrawler.java:147-157 | no course when the course API returns null or an empty list; a throwing request aborts the subcategory |
| Crawler.ItemCourses | src/main/java/com/example/crawler/coloso/ColosoCrawler.java:95-211 | the specification of one listing: items without an anchor add nothing, a built course is appended, an abort drops the rest of the listing |
| Crawler.SubcategoryCourses | src/main/java/com/example/crawler/coloso/ColosoCrawler.java:87-215 | the specification of one subcategory: its listing's courses, or none when the listing cannot be fetched |
| Crawler.ChildrenCourses | src/main/java/com/example/crawler/coloso/ColosoCrawler.java:77-216 | the specification of one main category: its direct children's courses, in order |
| Crawler.Courses | src/main/java/com/example/crawler/coloso/ColosoCrawler.java:72-220 | the specification of `getCourses`: the main categories' courses, in order |
| Crawler.ReadListing | src/main/java/com/example/crawler/coloso/ColosoCrawler.java:95-211 | the listing loop returns `ItemCourses`: items without an anchor add nothing, and an abort ends the loop |
| Crawler.ReadSubcategory | src/main/java/com/example/crawler/coloso/ColosoCrawler.java:87-93 | a subcategory yields `SubcategoryCourses`: nothing when its listing page cannot be fetched |
| Crawler.ReadChildren | src/main/java/com/example/crawler/coloso/ColosoCrawler.java:77-216 | the children loop returns `ChildrenCourses`, the subcategories in order |
| Crawler.GetCourses | src/main/java/com/example/crawler/coloso/ColosoCrawler.java:72-220 | `getCourses` returns `Courses`, the specification of the traversal |
| Crawler.ItemCoursesProvenance | src/main/java/com/example/crawler/coloso/ColosoCrawler.java:95-209 | every course of a listing was built from one of its anchors' URLs and carries the main and sub titles it was read under |
| Crawler.ItemCoursesAppend | src/main/java/com/example/crawler/coloso/ColosoCrawler.java:95-211 | with no abort in the first part, reading `a + b` is reading `a`, then `b`: listing items are kept in order |
| Crawler.ItemCoursesAbort | src/main/java/com/example/crawler/coloso/ColosoCrawler.java:105-108 | an aborted URL keeps the courses appended before it and drops every later item of that listing |
| Crawler.ChildrenCoursesAppend | src/main/java/com/example/crawler/coloso/ColosoCrawler.java:77-216 | subcategories are read one after the other, in order |
| Crawler.CoursesAppend | src/main/java/com/example/crawler/coloso/ColosoCrawler.java:75-217 | main categories are read one after the other, in order |
| Crawler.ListingFailureSkipsSubcategory | src/main/java/com/example/crawler/coloso/ColosoCrawler.java:91-92 | a listing page that cannot be fetched removes that subcategory only; its siblings are read as before |
| Crawler.ChildrenCoursesProvenance | src/main/java/com/example/crawler/coloso/ColosoCrawler.java:77-80 | every course of a main category carries that category's title and the title of one of its children |
| Crawler.CoursesProvenance | src/main/java/com/example/crawler/coloso/ColosoCrawler.java:75-80 | every course of `getCourses` carries the titles of a main category and one of its direct children whose listing yielded it; nothing deeper is read |
| Crawler.Get | src/main/java/com/example/crawler/coloso/ColosoCrawler.java:33-47 | the run fails exactly when reading the categories fails; otherwise it gives the lectures converted from the traversal's courses |

`ColosoCourse.java` lines 6-18 need no member: the datatype's constructor
takes the fields in declaration order and its destructors are the getters, and
a datatype value cannot be modified after construction.

## Left out

- HTTP, HTML and JSON: `RestTemplate`, `Jsoup.connect(...).get()`, the CSS selectors, `abs:href` resolution and Jackson decoding are inputs (the `Web` fields), not code.
- Logging: it has no effect on results. The loop in `getCategories` (ColosoCrawler.java:60-67) only logs, and so does `log.info` of each course. The log message for an empty course list repeats the price-specification message; the model distinguishes the two cases by `SkipReason`.
- Persistence: `LectureService.saveOrUpdateLectures` and the Spring wiring are outside the model. `Crawler.Get` returns the lectures it would be handed.
- Nulls inside decoded data are not modelled; those values are plain values. A null decoded product (`readValue` gives null for the JSON text `null`; `product.getProductId()` at ColosoCrawler.java:130 then throws, which abandons the subcategory), a null list element, and a null `offers`, `priceSpecifications`, `courses`, `keywords`, `children`, `productId`, `price` or category `id` would throw a `NullPointerException` or print `"null"`. Nulls are modelled only where the code tests for them: the category response, the course response, `extras` and the additional texts.
- Repeated fetches: the `Web` fields are fixed functions, so within one run the same URL always gives the same answer, including a subcategory id listed under two main categories. A site that answers differently on a second request is not modelled.
- The listing page's own `Jsoup.connect` (ColosoCrawler.java:90) sits outside the `try`. It is not modelled as a failure, because its URL is always a well-formed constant plus a number.
- Java's `char` is a UTF-16 unit. Here a character is a Unicode scalar value, which makes no difference to the whitespace sets and the trimming modelled.
- `Text.IsJavaWhitespace` follows the current Unicode tables of `Character.isWhitespace`. Older Java versions also count U+180E.
- The regex engine: `\s` is the six characters of Java's default `\s` class, and `" {2,}"` is modelled by its effect on runs of spaces.

/** `ColosoCrawler`: reads the category tree, walks every subcategory's course
    listing, extracts one `ColosoCourse` per course page that has all the data it
    needs, and converts the gathered courses into lectures.

    The outside world is a `Web` value: the listing pages, course pages, the
    JSON-LD decoder and the course API are functions of the URL (or text) the
    crawler hands them. */
module Crawler {
  import opened Wrappers
  import opened Strings
  import opened Text
  import opened Course
  import opened Convert

  const BaseUrl: string := "https://coloso.co.kr/"
  const CategoriesUrl: string := BaseUrl + "/api/displays"
  const CategoryCoursesUrl: string := BaseUrl + "/category"
  const CourseUrl: string := BaseUrl + "/api/catalogs/courses"

  /** A node of the category tree: main categories at the root, subcategories
      as their children. Nothing below the children is read. */
  datatype Category = Category(id: Long, title: string, children: seq<Category>)

  datatype CategoryListResponse = CategoryListResponse(categories: seq<Category>)

  /** The JSON-LD product block, with the fields the crawler reads. */
  datatype PriceSpecification = PriceSpecification(price: Long)
  datatype Offer = Offer(priceSpecifications: seq<PriceSpecification>)
  datatype Product = Product(productId: Long, offers: seq<Offer>)

  /** The course API's record; absent `extras` and absent texts are `None`. */
  datatype Extras = Extras(additionalText1: Option<string>, additionalText2: Option<string>,
                           additionalText3: Option<string>)
  datatype CourseRecord = CourseRecord(publicTitle: string, instructor: string, keywords: string,
                                       desktopCardAsset: string, extras: Option<Extras>)
  datatype CourseReadResponse = CourseReadResponse(courses: seq<CourseRecord>)

  /** A course page: `Jsoup.connect` refuses the URL, `get()` fails, or the page
      loads, with the text of its first `application/ld+json` script if any. */
  datatype CoursePage = Rejected | Unreachable | Loaded(ldJson: Option<string>)

  /** `RestTemplate.getForObject`: throws, or returns a body that may be null. */
  datatype Fetch<T> = Threw | Returned(body: Option<T>)

  datatype Web = Web(
    /** A listing page's `section > h3 ~ ul > li` items, each the `abs:href` of its
        direct `<a>` child if it has one; `None` when `get()` throws. */
    listing: string -> Option<seq<Option<string>>>,
    coursePage: string -> CoursePage,
    /** `objectMapper.readValue(json, Product.class)`; `None` when it throws. */
    decodeProduct: string -> Option<Product>,
    courseApi: string -> Fetch<CourseReadResponse>)

  datatype CrawlError = CategoriesRequestFailed | CategoriesReadFailed

  /** Why a course URL gives no course (each is logged and the next URL is read). */
  datatype SkipReason =
    | CoursePageUnreadable
    | NoLdJson
    | LdJsonUnparsable
    | NoOffer
    | NoPriceSpecification
    | NoCourseResponse
    | NoCourseRecord

  /** The outcome of one course URL. `Aborted` is an exception that the per-course
      code does not catch: it leaves the listing loop of the subcategory. */
  datatype Step = Built(course: ColosoCourse) | Skipped(reason: SkipReason) | Aborted

  function CategoryPageUrl(id: Long): string {
    CategoryCoursesUrl + "/" + Decimal(id)
  }

  function CourseApiUrl(id: Long): string {
    CourseUrl + "?id=" + Decimal(id)
  }

  /** `getCategories`: a null response is fatal, and so is a request that throws. */
  function GetCategories(response: Fetch<CategoryListResponse>): (r: Result<seq<Category>, CrawlError>)
    ensures r.Success? <==> response.Returned? && response.body.Some?
    ensures r.Success? ==> r.value == response.body.value.categories
  {
    match response
    case Threw => Failure(CategoriesRequestFailed)
    case Returned(None) => Failure(CategoriesReadFailed)
    case Returned(Some(body)) => Success(body.categories)
  }

  // ---------------------------------------------------------------------------
  // Description assembly

  /** The three additional texts, or none when `extras` is null. */
  function AdditionalTexts(extras: Option<Extras>): seq<Option<string>>
  {
    match extras
    case None => []
    case Some(x) => [x.additionalText1, x.additionalText2, x.additionalText3]
  }

  /** The texts that pass `StringUtils.hasText`, in order. */
  function WithText(texts: seq<Option<string>>): (r: seq<string>)
    ensures |r| <= |texts|
    ensures forall i :: 0 <= i < |r| ==> HasText(Some(r[i]))
  {
    if texts == [] then []
    else
      var last := texts[|texts| - 1];
      WithText(texts[..|texts| - 1]) + (if HasText(last) then [last.value] else [])
  }

  /** A text is kept exactly when some input text has text and holds it. */
  lemma {:induction false} WithTextMembers(texts: seq<Option<string>>)
    ensures forall t :: t in WithText(texts) <==>
              exists i :: 0 <= i < |texts| && HasText(texts[i]) && texts[i].value == t
  {
    if texts != [] {
      var n := |texts| - 1;
      var init := texts[..n];
      WithTextMembers(init);
      assert WithText(texts) == WithText(init) + (if HasText(texts[n]) then [texts[n].value] else []);
      forall t | t in WithText(texts)
        ensures exists i :: 0 <= i < |texts| && HasText(texts[i]) && texts[i].value == t
      {
        if t in WithText(init) {
          var i :| 0 <= i < |init| && HasText(init[i]) && init[i].value == t;
          assert texts[i] == init[i];
        } else {
          assert HasText(texts[n]) && texts[n].value == t;
        }
      }
      forall t | exists i :: 0 <= i < |texts| && HasText(texts[i]) && texts[i].value == t
        ensures t in WithText(texts)
      {
        var i :| 0 <= i < |texts| && HasText(texts[i]) && texts[i].value == t;
        if i < n {
          assert init[i] == texts[i];
        }
      }
    }
  }

  /** Three texts: each kept in turn when it has text. */
  lemma WithTextThree(a: Option<string>, b: Option<string>, c: Option<string>)
    ensures WithText([a, b, c]) == [] + (if HasText(a) then [a.value] else [])
                                     + (if HasText(b) then [b.value] else [])
                                     + (if HasText(c) then [c.value] else [])
  {
    assert [a][..0] == [];
    assert WithText([a]) == [] + (if HasText(a) then [a.value] else []);
    assert [a, b][..1] == [a];
    assert WithText([a, b]) == WithText([a]) + (if HasText(b) then [b.value] else []);
    assert [a, b, c][..2] == [a, b];
    assert WithText([a, b, c]) == WithText([a, b]) + (if HasText(c) then [c.value] else []);
  }

  /** The description: the additional texts that have text, joined by single
      spaces, then normalized. */
  function Description(extras: Option<Extras>): string
  {
    Normalize(Join(WithText(AdditionalTexts(extras)), ' '))
  }

  /** Texts that each have text, joined, have text exactly when there is one. */
  lemma JoinHasText(parts: seq<string>)
    requires forall i :: 0 <= i < |parts| ==> HasText(Some(parts[i]))
    ensures HasText(Some(Join(parts, ' '))) <==> parts != []
  {
    if parts != [] {
      var s := Join(parts, ' ');
      assert s[..|parts[0]|] == parts[0];
      var i :| 0 <= i < |parts[0]| && !IsJavaWhitespace(parts[0][i]);
      assert s[i] == parts[0][i];
    }
  }

  /** One `if (StringUtils.hasText(text)) { ... sb.append(text); }` block. */
  method AppendText(sb: string, ghost parts: seq<string>, text: Option<string>)
      returns (sb': string, ghost parts': seq<string>)
    requires sb == Join(parts, ' ')
    requires forall i :: 0 <= i < |parts| ==> HasText(Some(parts[i]))
    ensures sb' == Join(parts', ' ')
    ensures parts' == parts + (if HasText(text) then [text.value] else [])
    ensures forall i :: 0 <= i < |parts'| ==> HasText(Some(parts'[i]))
  {
    sb', parts' := sb, parts;
    if HasText(text) {
      JoinHasText(parts);
      if HasText(Some(sb')) {
        sb' := sb' + " ";
      }
      sb' := sb' + text.value;
      parts' := parts + [text.value];
      if parts != [] {
        JoinSnoc(parts, text.value, ' ');
      }
    }
  }

  /** The `StringBuilder` code: append each additional text that has text, with a
      space before it when something with text is already there; then normalize,
      or give "" when nothing was appended. */
  method BuildDescription(extras: Option<Extras>) returns (description: string)
    ensures description == Normalize(Join(WithText(AdditionalTexts(extras)), ' '))
    ensures WithText(AdditionalTexts(extras)) == [] ==> description == ""
  {
    var sb := "";
    ghost var parts: seq<string> := [];
    if extras.Some? {
      var text1 := extras.value.additionalText1;
      var text2 := extras.value.additionalText2;
      var text3 := extras.value.additionalText3;
      sb, parts := AppendText(sb, parts, text1);
      sb, parts := AppendText(sb, parts, text2);
      sb, parts := AppendText(sb, parts, text3);
      WithTextThree(text1, text2, text3);
    }
    assert parts == WithText(AdditionalTexts(extras));
    JoinHasText(parts);
    description := "";
    if HasText(Some(sb)) {
      description := Normalize(sb);
    }
  }

  /** The description of the first example course: the empty middle text is
      left out and the other two are joined by one space. */
  lemma DescriptionExample(extras: Option<Extras>)
    requires extras == Some(Extras(Some("Learn the basics"), Some(""), Some("of digital art")))
    ensures Description(extras) == "Learn the basics of digital art"
  {
    var t1, t3 := "Learn the basics", "of digital art";
    assert !IsJavaWhitespace(t1[0]) && !IsJavaWhitespace(t3[0]);
    assert !HasText(Some(""));
    WithTextThree(Some(t1), Some(""), Some(t3));
    assert WithText(AdditionalTexts(extras)) == [t1, t3];
    var joined := Join([t1, t3], ' ');
    assert [t1, t3][1..] == [t3];
    assert Join([t3], ' ') == t3;
    assert joined == t1 + [' '] + Join([t3], ' ');
    JoinedExample(t1, t3, joined);
    NormalExample(joined);
    NormalizeFixesNormal(joined);
  }

  lemma JoinedExample(a: string, b: string, s: string)
    requires a == "Learn the basics" && b == "of digital art" && s == a + [' '] + b
    ensures s == "Learn the basics of digital art"
  {
    assert |s| == 31;
    forall i | 0 <= i < 31
      ensures s[i] == "Learn the basics of digital art"[i]
    {
      if i < 16 {
        assert s[i] == a[i];
      } else if i > 16 {
        assert s[i] == b[i - 17];
      }
    }
  }

  lemma NormalExample(s: string)
    requires s == "Learn the basics of digital art"
    ensures IsNormal(s)
  {
  }

  // ---------------------------------------------------------------------------
  // One course URL

  /** What one course URL yields: the chain of checks of the listing loop's body. */
  function CourseStep(web: Web, courseUrl: string, mainTitle: string, subTitle: string): Step
  {
    match web.coursePage(courseUrl)
    case Rejected => Aborted
    case Unreachable => Skipped(CoursePageUnreadable)
    case Loaded(None) => Skipped(NoLdJson)
    case Loaded(Some(json)) =>
      match web.decodeProduct(json)
      case None => Skipped(LdJsonUnparsable)
      case Some(product) =>
        if product.offers == [] then Skipped(NoOffer)
        else if product.offers[0].priceSpecifications == [] then Skipped(NoPriceSpecification)
        else
          match web.courseApi(CourseApiUrl(product.productId))
          case Threw => Aborted
          case Returned(None) => Skipped(NoCourseResponse)
          case Returned(Some(response)) =>
            if response.courses == [] then Skipped(NoCourseRecord)
            else
              var course := response.courses[0];
              Built(ColosoCourse(product.productId, course.publicTitle,
                                 product.offers[0].priceSpecifications[0].price,
                                 Description(course.extras), Normalize(course.keywords),
                                 course.instructor, mainTitle, subTitle, courseUrl,
                                 course.desktopCardAsset))
  }

  /** The body of the listing loop for one anchor: fetch the page, read the JSON-LD
      block, take the first offer's first price, ask the course API for the id, and
      build the course from its first record. */
  method ReadCourse(web: Web, courseUrl: string, mainTitle: string, subTitle: string) returns (step: Step)
    ensures step == CourseStep(web, courseUrl, mainTitle, subTitle)
    ensures step.Built? ==> step.course.mainCategory == mainTitle && step.course.subCategory == subTitle
                            && step.course.url == courseUrl
    ensures step.Built? ==> IsNormal(step.course.keywords) && IsNormal(step.course.description)
  {
    var page := web.coursePage(courseUrl);
    if page.Rejected? {
      return Aborted;
    }
    if page.Unreachable? {
      return Skipped(CoursePageUnreadable);
    }
    if page.ldJson.None? {
      return Skipped(NoLdJson);
    }
    var json := page.ldJson.value;
    var product := web.decodeProduct(json);
    if product.None? {
      return Skipped(LdJsonUnparsable);
    }
    var id := product.value.productId;
    var offers := product.value.offers;
    if |offers| == 0 {
      return Skipped(NoOffer);
    }
    var priceSpecifications := offers[0].priceSpecifications;
    if |priceSpecifications| == 0 {
      return Skipped(NoPriceSpecification);
    }
    var price := priceSpecifications[0].price;
    var response := web.courseApi(CourseApiUrl(id));
    if response.Threw? {
      return Aborted;
    }
    if response.body.None? {
      return Skipped(NoCourseResponse);
    }
    var courses := response.body.value.courses;
    if |courses| == 0 {
      return Skipped(NoCourseRecord);
    }
    var course := courses[0];
    var keywords := Normalize(course.keywords);
    NormalizeIsNormal(course.keywords);
    var description := BuildDescription(course.extras);
    NormalizeIsNormal(Join(WithText(AdditionalTexts(course.extras)), ' '));
    step := Built(ColosoCourse(id, course.publicTitle, price, description, keywords,
                               course.instructor, mainTitle, subTitle, courseUrl,
                               course.desktopCardAsset));
  }

  /** A course URL gives a course exactly when its page loads with a JSON-LD block
      that decodes to a product with a first offer holding a price specification,
      and the course API returns a non-empty list for the product's id; the course
      then takes its id from `productId`, its price from the first price
      specification of the first offer, and the rest from the first API record. */
  lemma CourseStepBuilt(web: Web, courseUrl: string, mainTitle: string, subTitle: string,
                        json: string, product: Product, response: CourseReadResponse)
    requires web.coursePage(courseUrl) == Loaded(Some(json))
    requires web.decodeProduct(json) == Some(product)
    requires product.offers != [] && product.offers[0].priceSpecifications != []
    requires web.courseApi(CourseApiUrl(product.productId)) == Returned(Some(response))
    requires response.courses != []
    ensures var c := response.courses[0];
            CourseStep(web, courseUrl, mainTitle, subTitle)
            == Built(ColosoCourse(product.productId, c.publicTitle,
                                  product.offers[0].priceSpecifications[0].price,
                                  Description(c.extras), Normalize(c.keywords), c.instructor,
                                  mainTitle, subTitle, courseUrl, c.desktopCardAsset))
  {
  }

  /** The skip conditions, each one on its own. */
  lemma CourseStepSkips(web: Web, courseUrl: string, mainTitle: string, subTitle: string)
    ensures web.coursePage(courseUrl).Rejected? ==>
              CourseStep(web, courseUrl, mainTitle, subTitle) == Aborted
    ensures web.coursePage(courseUrl).Unreachable? ==>
              CourseStep(web, courseUrl, mainTitle, subTitle) == Skipped(CoursePageUnreadable)
    ensures web.coursePage(courseUrl) == Loaded(None) ==>
              CourseStep(web, courseUrl, mainTitle, subTitle) == Skipped(NoLdJson)
    ensures forall json :: web.coursePage(courseUrl) == Loaded(Some(json)) ==>
              var product := web.decodeProduct(json);
              && (product.None? ==>
                    CourseStep(web, courseUrl, mainTitle, subTitle) == Skipped(LdJsonUnparsable))
              && (product.Some? && product.value.offers == [] ==>
                    CourseStep(web, courseUrl, mainTitle, subTitle) == Skipped(NoOffer))
              && (product.Some? && product.value.offers != []
                  && product.value.offers[0].priceSpecifications == [] ==>
                    CourseStep(web, courseUrl, mainTitle, subTitle) == Skipped(NoPriceSpecification))
  {
  }

  /** The skip conditions of the course API's answer, once the product is read. */
  lemma CourseStepApiSkips(web: Web, courseUrl: string, mainTitle: string, subTitle: string,
                           json: string, product: Product)
    requires web.coursePage(courseUrl) == Loaded(Some(json))
    requires web.decodeProduct(json) == Some(product)
    requires product.offers != [] && product.offers[0].priceSpecifications != []
    ensures web.courseApi(CourseApiUrl(product.productId)) == Returned(None) ==>
              CourseStep(web, courseUrl, mainTitle, subTitle) == Skipped(NoCourseResponse)
    ensures web.courseApi(CourseApiUrl(product.productId)) == Returned(Some(CourseReadResponse([]))) ==>
              CourseStep(web, courseUrl, mainTitle, subTitle) == Skipped(NoCourseRecord)
    ensures web.courseApi(CourseApiUrl(product.productId)).Threw? ==>
              CourseStep(web, courseUrl, mainTitle, subTitle) == Aborted
  {
  }

  // ---------------------------------------------------------------------------
  // Traversal

  /** The listing loop from some item on: items without an anchor and skipped URLs
      add nothing, and an aborted URL ends the subcategory. */
  function ItemCourses(web: Web, mainTitle: string, subTitle: string, items: seq<Option<string>>): seq<ColosoCourse>
  {
    if items == [] then []
    else
      match items[0]
      case None => ItemCourses(web, mainTitle, subTitle, items[1..])
      case Some(courseUrl) =>
        match CourseStep(web, courseUrl, mainTitle, subTitle)
        case Built(c) => [c] + ItemCourses(web, mainTitle, subTitle, items[1..])
        case Skipped(_) => ItemCourses(web, mainTitle, subTitle, items[1..])
        case Aborted => []
  }

  /** One subcategory: nothing when its listing page cannot be read. */
  function SubcategoryCourses(web: Web, mainTitle: string, child: Category): seq<ColosoCourse>
  {
    match web.listing(CategoryPageUrl(child.id))
    case None => []
    case Some(items) => ItemCourses(web, mainTitle, child.title, items)
  }

  /** The subcategories of one main category, in order. */
  function ChildrenCourses(web: Web, mainTitle: string, children: seq<Category>): seq<ColosoCourse>
  {
    if children == [] then []
    else SubcategoryCourses(web, mainTitle, children[0]) + ChildrenCourses(web, mainTitle, children[1..])
  }

  /** What `getCourses` returns: the main categories in order. */
  function Courses(web: Web, categories: seq<Category>): seq<ColosoCourse>
  {
    if categories == [] then []
    else ChildrenCourses(web, categories[0].title, categories[0].children) + Courses(web, categories[1..])
  }

  /** The listing loop of one subcategory: every item with a direct anchor is read
      in order and its course appended; an exception escaping the per-course code
      is caught once per subcategory, so it ends this loop only. */
  method ReadListing(web: Web, mainCategoryTitle: string, subCategoryTitle: string,
                     listElements: seq<Option<string>>) returns (found: seq<ColosoCourse>)
    ensures found == ItemCourses(web, mainCategoryTitle, subCategoryTitle, listElements)
  {
    found := [];
    var k := 0;
    while k < |listElements|
      invariant 0 <= k <= |listElements|
      invariant found + ItemCourses(web, mainCategoryTitle, subCategoryTitle, listElements[k..])
                == ItemCourses(web, mainCategoryTitle, subCategoryTitle, listElements)
    {
      var anchor := listElements[k];
      assert listElements[k..][1..] == listElements[k + 1..];
      if anchor.None? {
        k := k + 1;
        continue;
      }
      var step := ReadCourse(web, anchor.value, mainCategoryTitle, subCategoryTitle);
      if step.Aborted? {
        break;
      }
      if step.Built? {
        ConcatAssoc(found, [step.course], ItemCourses(web, mainCategoryTitle, subCategoryTitle, listElements[k + 1..]));
        found := found + [step.course];
      }
      k := k + 1;
    }
  }

  /** One subcategory of the nested loop: fetch its listing page; when that
      fails the subcategory adds nothing. */
  method ReadSubcategory(web: Web, mainCategoryTitle: string, child: Category)
      returns (found: seq<ColosoCourse>)
    ensures found == SubcategoryCourses(web, mainCategoryTitle, child)
  {
    found := [];
    var listing := web.listing(CategoryPageUrl(child.id));
    if listing.Some? {
      found := ReadListing(web, mainCategoryTitle, child.title, listing.value);
    }
  }

  /** The middle loop of `getCourses`: the children of one main category, in order. */
  method ReadChildren(web: Web, mainCategoryTitle: string, children: seq<Category>)
      returns (found: seq<ColosoCourse>)
    ensures found == ChildrenCourses(web, mainCategoryTitle, children)
  {
    found := [];
    var j := 0;
    while j < |children|
      invariant 0 <= j <= |children|
      invariant found + ChildrenCourses(web, mainCategoryTitle, children[j..])
                == ChildrenCourses(web, mainCategoryTitle, children)
    {
      var child := children[j];
      assert children[j..][0] == child && children[j..][1..] == children[j + 1..];
      ChildrenCoursesUnfold(web, mainCategoryTitle, children[j..]);
      ghost var rest := ChildrenCourses(web, mainCategoryTitle, children[j + 1..]);
      var fromChild := ReadSubcategory(web, mainCategoryTitle, child);
      ConcatAssoc(found, fromChild, rest);
      found := found + fromChild;
      j := j + 1;
    }
  }

  /** `getCourses`: the outer loop over the main categories, appending what the
      children of each yield, in traversal order. */
  method GetCourses(web: Web, categories: seq<Category>) returns (colosoCourses: seq<ColosoCourse>)
    ensures colosoCourses == Courses(web, categories)
  {
    colosoCourses := [];
    var i := 0;
    while i < |categories|
      invariant 0 <= i <= |categories|
      invariant colosoCourses + Courses(web, categories[i..]) == Courses(web, categories)
    {
      var category := categories[i];
      assert categories[i..][0] == category && categories[i..][1..] == categories[i + 1..];
      assert Courses(web, categories[i..])
             == ChildrenCourses(web, category.title, category.children) + Courses(web, categories[i + 1..]);
      var fromCategory := ReadChildren(web, category.title, category.children);
      ConcatAssoc(colosoCourses, fromCategory, Courses(web, categories[i + 1..]));
      colosoCourses := colosoCourses + fromCategory;
      i := i + 1;
    }
  }

  // ---------------------------------------------------------------------------
  // Properties of the traversal

  /** Every course listed for a subcategory was built from one of its anchors, and
      carries the titles of its main category and subcategory. */
  lemma {:induction false} ItemCoursesProvenance(web: Web, mainTitle: string, subTitle: string,
                                                 items: seq<Option<string>>, c: ColosoCourse)
    requires c in ItemCourses(web, mainTitle, subTitle, items)
    ensures Some(c.url) in items
    ensures CourseStep(web, c.url, mainTitle, subTitle) == Built(c)
    ensures c.mainCategory == mainTitle && c.subCategory == subTitle
  {
    var rest := ItemCourses(web, mainTitle, subTitle, items[1..]);
    assert items == [items[0]] + items[1..];
    match items[0]
    case None =>
      ItemCoursesProvenance(web, mainTitle, subTitle, items[1..], c);
    case Some(courseUrl) =>
      match CourseStep(web, courseUrl, mainTitle, subTitle)
      case Built(d) =>
        assert ItemCourses(web, mainTitle, subTitle, items) == [d] + rest;
        if c != d {
          ItemCoursesProvenance(web, mainTitle, subTitle, items[1..], c);
        } else {
          ReadCourseKeepsContext(web, courseUrl, mainTitle, subTitle);
        }
      case Skipped(_) =>
        ItemCoursesProvenance(web, mainTitle, subTitle, items[1..], c);
  }

  /** A built course carries the URL and the titles it was read with. */
  lemma ReadCourseKeepsContext(web: Web, courseUrl: string, mainTitle: string, subTitle: string)
    requires CourseStep(web, courseUrl, mainTitle, subTitle).Built?
    ensures var c := CourseStep(web, courseUrl, mainTitle, subTitle).course;
            c.url == courseUrl && c.mainCategory == mainTitle && c.subCategory == subTitle
  {
  }

  /** No anchor among `items` makes the subcategory's loop stop. */
  predicate NoAbort(web: Web, mainTitle: string, subTitle: string, items: seq<Option<string>>) {
    forall i :: 0 <= i < |items| && items[i].Some? ==> !CourseStep(web, items[i].value, mainTitle, subTitle).Aborted?
  }

  /** Reading `a + b` without an abort in `a` is reading `a`, then `b`. */
  lemma {:induction false} ItemCoursesAppend(web: Web, mainTitle: string, subTitle: string,
                                             a: seq<Option<string>>, b: seq<Option<string>>)
    requires NoAbort(web, mainTitle, subTitle, a)
    ensures ItemCourses(web, mainTitle, subTitle, a + b)
            == ItemCourses(web, mainTitle, subTitle, a) + ItemCourses(web, mainTitle, subTitle, b)
  {
    if a == [] {
      assert a + b == b;
    } else {
      var tail := a[1..];
      ConsAppend(a, b);
      NoAbortTail(web, mainTitle, subTitle, a);
      ItemCoursesAppend(web, mainTitle, subTitle, tail, b);
      ItemCoursesStep(web, mainTitle, subTitle, a);
      ItemCoursesStep(web, mainTitle, subTitle, a + b);
      var head := ItemHead(web, mainTitle, subTitle, a[0]);
      var rest, restB := ItemCourses(web, mainTitle, subTitle, tail), ItemCourses(web, mainTitle, subTitle, b);
      ConcatAssoc(head, rest, restB);
    }
  }

  /** What one non-aborting item adds to the listing. */
  function ItemHead(web: Web, mainTitle: string, subTitle: string, item: Option<string>): seq<ColosoCourse>
  {
    if item.Some? && CourseStep(web, item.value, mainTitle, subTitle).Built?
    then [CourseStep(web, item.value, mainTitle, subTitle).course]
    else []
  }

  lemma ItemCoursesStep(web: Web, mainTitle: string, subTitle: string, items: seq<Option<string>>)
    requires items != []
    requires items[0].Some? ==> !CourseStep(web, items[0].value, mainTitle, subTitle).Aborted?
    ensures ItemCourses(web, mainTitle, subTitle, items)
            == ItemHead(web, mainTitle, subTitle, items[0]) + ItemCourses(web, mainTitle, subTitle, items[1..])
  {
  }

  lemma NoAbortTail(web: Web, mainTitle: string, subTitle: string, items: seq<Option<string>>)
    requires items != [] && NoAbort(web, mainTitle, subTitle, items)
    ensures items[0].Some? ==> !CourseStep(web, items[0].value, mainTitle, subTitle).Aborted?
    ensures NoAbort(web, mainTitle, subTitle, items[1..])
  {
    var tail := items[1..];
    forall i | 0 <= i < |tail| && tail[i].Some?
      ensures !CourseStep(web, tail[i].value, mainTitle, subTitle).Aborted?
    {
      assert tail[i] == items[i + 1];
    }
  }

  /** An aborted course URL keeps the courses already appended for its subcategory
      and drops every later item of that listing. */
  lemma ItemCoursesAbort(web: Web, mainTitle: string, subTitle: string,
                         before: seq<Option<string>>, courseUrl: string, after: seq<Option<string>>)
    requires NoAbort(web, mainTitle, subTitle, before)
    requires CourseStep(web, courseUrl, mainTitle, subTitle).Aborted?
    ensures ItemCourses(web, mainTitle, subTitle, before + [Some(courseUrl)] + after)
            == ItemCourses(web, mainTitle, subTitle, before)
  {
    assert before + [Some(courseUrl)] + after == before + ([Some(courseUrl)] + after);
    ItemCoursesAppend(web, mainTitle, subTitle, before, [Some(courseUrl)] + after);
  }

  /** Subcategories are read one after the other, independently. */
  lemma {:induction false} ChildrenCoursesAppend(web: Web, mainTitle: string, a: seq<Category>, b: seq<Category>)
    ensures ChildrenCourses(web, mainTitle, a + b)
            == ChildrenCourses(web, mainTitle, a) + ChildrenCourses(web, mainTitle, b)
  {
    if a == [] {
      assert a + b == b;
    } else {
      assert (a + b)[0] == a[0] && (a + b)[1..] == a[1..] + b;
      ChildrenCoursesAppend(web, mainTitle, a[1..], b);
      ConcatAssoc(SubcategoryCourses(web, mainTitle, a[0]), ChildrenCourses(web, mainTitle, a[1..]),
                  ChildrenCourses(web, mainTitle, b));
    }
  }

  /** Main categories are read one after the other, independently: the output
      follows the traversal order. */
  lemma {:induction false} CoursesAppend(web: Web, a: seq<Category>, b: seq<Category>)
    ensures Courses(web, a + b) == Courses(web, a) + Courses(web, b)
  {
    if a == [] {
      assert a + b == b;
    } else {
      var head := ChildrenCourses(web, a[0].title, a[0].children);
      assert (a + b)[0] == a[0];
      assert (a + b)[1..] == a[1..] + b;
      assert Courses(web, a + b) == head + Courses(web, a[1..] + b);
      CoursesAppend(web, a[1..], b);
      ConcatAssoc(head, Courses(web, a[1..]), Courses(web, b));
    }
  }

  lemma ChildrenCoursesUnfold(web: Web, mainTitle: string, children: seq<Category>)
    requires children != []
    ensures ChildrenCourses(web, mainTitle, children)
            == SubcategoryCourses(web, mainTitle, children[0]) + ChildrenCourses(web, mainTitle, children[1..])
  {
  }

  lemma ChildrenCoursesCons(web: Web, mainTitle: string, child: Category, rest: seq<Category>)
    ensures ChildrenCourses(web, mainTitle, [child] + rest)
            == SubcategoryCourses(web, mainTitle, child) + ChildrenCourses(web, mainTitle, rest)
  {
    assert ([child] + rest)[1..] == rest;
  }

  /** A subcategory whose listing page cannot be read adds nothing, and its
      siblings are read as if it were not there. */
  lemma ListingFailureSkipsSubcategory(web: Web, mainTitle: string, children: seq<Category>, j: nat)
    requires j < |children| && web.listing(CategoryPageUrl(children[j].id)).None?
    ensures ChildrenCourses(web, mainTitle, children)
            == ChildrenCourses(web, mainTitle, children[..j]) + ChildrenCourses(web, mainTitle, children[j + 1..])
  {
    var rest := [children[j]] + children[j + 1..];
    SplitAt(children, j);
    ChildrenCoursesAppend(web, mainTitle, children[..j], rest);
    ChildrenCoursesCons(web, mainTitle, children[j], children[j + 1..]);
    assert SubcategoryCourses(web, mainTitle, children[j]) == [];
    assert ChildrenCourses(web, mainTitle, rest) == ChildrenCourses(web, mainTitle, children[j + 1..]);
  }

  lemma {:induction false} ChildrenCoursesProvenance(web: Web, mainTitle: string, children: seq<Category>, c: ColosoCourse)
    requires c in ChildrenCourses(web, mainTitle, children)
    ensures c.mainCategory == mainTitle
    ensures exists j :: 0 <= j < |children| && c.subCategory == children[j].title
                        && c in SubcategoryCourses(web, mainTitle, children[j])
  {
    if c in SubcategoryCourses(web, mainTitle, children[0]) {
      var items := web.listing(CategoryPageUrl(children[0].id)).value;
      ItemCoursesProvenance(web, mainTitle, children[0].title, items, c);
    } else {
      ChildrenCoursesProvenance(web, mainTitle, children[1..], c);
      var j :| 0 <= j < |children[1..]| && c.subCategory == children[1..][j].title
               && c in SubcategoryCourses(web, mainTitle, children[1..][j]);
      assert children[j + 1] == children[1..][j];
    }
  }

  /** Every course of `getCourses` carries the titles of the main category and the
      subcategory whose listing holds its URL. */
  lemma {:induction false} CoursesProvenance(web: Web, categories: seq<Category>, c: ColosoCourse)
    requires c in Courses(web, categories)
    ensures exists i, j :: 0 <= i < |categories| && 0 <= j < |categories[i].children|
                           && c.mainCategory == categories[i].title
                           && c.subCategory == categories[i].children[j].title
                           && c in SubcategoryCourses(web, categories[i].title, categories[i].children[j])
  {
    var cat := categories[0];
    if c in ChildrenCourses(web, cat.title, cat.children) {
      ChildrenCoursesProvenance(web, cat.title, cat.children, c);
      var j :| 0 <= j < |cat.children| && c.subCategory == cat.children[j].title
               && c in SubcategoryCourses(web, cat.title, cat.children[j]);
      assert categories[0].children[j] == cat.children[j];
    } else {
      CoursesProvenance(web, categories[1..], c);
      var i, j :| 0 <= i < |categories[1..]| && 0 <= j < |categories[1..][i].children|
                  && c.mainCategory == categories[1..][i].title
                  && c.subCategory == categories[1..][i].children[j].title
                  && c in SubcategoryCourses(web, categories[1..][i].title, categories[1..][i].children[j]);
      assert categories[i + 1] == categories[1..][i];
    }
  }

  // ---------------------------------------------------------------------------
  // The whole run

  /** `get`: read the categories (fatal on failure), gather the courses, convert
      them, and hand the lectures to the persistence service (here: return them). */
  method Get(web: Web, categoriesResponse: Fetch<CategoryListResponse>, table: seq<TaxonomyEntry>)
      returns (r: Result<seq<Lecture>, CrawlError>)
    ensures r.Failure? <==> !(categoriesResponse.Returned? && categoriesResponse.body.Some?)
    ensures r.Success? ==>
              r.value == Lectures(Courses(web, categoriesResponse.body.value.categories), table)
  {
    var categories := GetCategories(categoriesResponse);
    if categories.Failure? {
      return Failure(categories.error);
    }
    var courses := GetCourses(web, categories.value);
    var lectures := ConvertCourses(courses, table);
    return Success(lectures);
  }
}

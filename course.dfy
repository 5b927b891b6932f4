/** `ColosoCourse`: the immutable record the crawler builds per course page,
    and its tab-separated `toString`. */
module Course {
  import opened Strings

  /** Fields in declaration order, which is also the constructor's parameter
      order (Lombok's `@RequiredArgsConstructor` over `final` fields); the
      datatype's destructors are the getters. */
  datatype ColosoCourse = ColosoCourse(
    id: Long,
    title: string,
    price: Long,
    description: string,
    keywords: string,
    instructor: string,
    mainCategory: string,
    subCategory: string,
    url: string,
    imageUrl: string)

  /** `toString`: the fields joined by tabs, with instructor before price. */
  function ToString(c: ColosoCourse): string
  {
    Decimal(c.id) + "\t" +
    c.title + "\t" +
    c.instructor + "\t" +
    Decimal(c.price) + "\t" +
    c.mainCategory + "\t" +
    c.subCategory + "\t" +
    c.description + "\t" +
    c.keywords + "\t" +
    c.url + "\t" +
    c.imageUrl
  }

  /** The renderings of the fields in the order `toString` writes them. */
  function Columns(c: ColosoCourse): (cols: seq<string>)
    ensures |cols| == 10
  {
    [Decimal(c.id), c.title, c.instructor, Decimal(c.price), c.mainCategory,
     c.subCategory, c.description, c.keywords, c.url, c.imageUrl]
  }

  /** No string field holds a tab. */
  predicate TabFree(c: ColosoCourse) {
    && '\t' !in c.title && '\t' !in c.instructor && '\t' !in c.mainCategory
    && '\t' !in c.subCategory && '\t' !in c.description && '\t' !in c.keywords
    && '\t' !in c.url && '\t' !in c.imageUrl
  }

  /** One more column at the end of a prefix of the columns. */
  lemma JoinPrefix(cols: seq<string>, k: nat)
    requires 0 < k < |cols|
    ensures Join(cols[..k + 1], '\t') == Join(cols[..k], '\t') + "\t" + cols[k]
  {
    assert cols[..k + 1] == cols[..k] + [cols[k]];
    JoinSnoc(cols[..k], cols[k], '\t');
  }

  /** The first four of ten parts joined by tabs. */
  lemma JoinFour(cols: seq<string>)
    requires |cols| == 10
    ensures Join(cols[..4], '\t') == cols[0] + "\t" + cols[1] + "\t" + cols[2] + "\t" + cols[3]
  {
    assert Join(cols[..1], '\t') == cols[0];
    JoinPrefix(cols, 1);
    JoinPrefix(cols, 2);
    JoinPrefix(cols, 3);
  }

  /** The first seven of ten parts joined by tabs. */
  lemma JoinSeven(cols: seq<string>)
    requires |cols| == 10
    ensures Join(cols[..7], '\t') == Join(cols[..4], '\t') + "\t" + cols[4] + "\t" + cols[5] + "\t" + cols[6]
  {
    JoinPrefix(cols, 4);
    JoinPrefix(cols, 5);
    JoinPrefix(cols, 6);
  }

  /** Ten parts joined by tabs, written out as one concatenation. */
  lemma JoinTen(cols: seq<string>)
    requires |cols| == 10
    ensures Join(cols, '\t') == cols[0] + "\t" + cols[1] + "\t" + cols[2] + "\t" + cols[3] + "\t" + cols[4]
                                + "\t" + cols[5] + "\t" + cols[6] + "\t" + cols[7] + "\t" + cols[8] + "\t" + cols[9]
  {
    JoinFour(cols);
    JoinSeven(cols);
    JoinPrefix(cols, 7);
    JoinPrefix(cols, 8);
    JoinPrefix(cols, 9);
    assert cols[..10] == cols;
  }

  /** `toString` is the ten columns joined by single tabs. */
  lemma ToStringIsJoin(c: ColosoCourse)
    ensures ToString(c) == Join(Columns(c), '\t')
  {
    JoinTen(Columns(c));
  }

  lemma ColumnsTabFree(c: ColosoCourse)
    requires TabFree(c)
    ensures forall i :: 0 <= i < 10 ==> '\t' !in Columns(c)[i]
  {
    DecimalHasNo(c.id, '\t');
    DecimalHasNo(c.price, '\t');
  }

  /** With no tab inside a field, splitting `toString` at tabs gives back exactly
      the ten columns, in order: the id's numeral, title, instructor, the price's
      numeral, main category, subcategory, description, keywords, url, image url. */
  lemma SplitToString(c: ColosoCourse)
    requires TabFree(c)
    ensures Split(ToString(c), '\t') == Columns(c)
    ensures |Split(ToString(c), '\t')| == 10
  {
    ToStringIsJoin(c);
    ColumnsTabFree(c);
    SplitJoin(Columns(c), '\t');
  }

  /** With no tab inside a field, `toString` holds exactly nine tabs, and it never
      starts with one (the id's numeral comes first). */
  lemma ToStringTabs(c: ColosoCourse)
    requires TabFree(c)
    ensures Count(ToString(c), '\t') == 9
    ensures ToString(c)[0] != '\t'
  {
    ToStringIsJoin(c);
    ColumnsTabFree(c);
    JoinCount(Columns(c), '\t');
  }

  /** The last character of `toString` is the last character of the image url,
      or the ninth tab when the image url is empty. */
  lemma ToStringLast(c: ColosoCourse)
    ensures c.imageUrl == [] ==> ToString(c)[|ToString(c)| - 1] == '\t'
    ensures c.imageUrl != [] ==> ToString(c)[|ToString(c)| - 1] == c.imageUrl[|c.imageUrl| - 1]
  {
  }
}

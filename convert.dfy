/** `convertCourses`: drops repeated course ids (first seen wins), maps each
    surviving course's (main, sub) category pair onto the canonical taxonomy
    (first matching entry wins, unmapped courses are dropped) and builds one
    `Lecture` per kept course. */
module Convert {
  import opened Wrappers
  import opened Strings
  import opened Course

  /** The `SOURCE` constant every lecture is tagged with. */
  const Source: string := "coloso"

  /** One constant of the `Category` enum: the crawler reads its original
      (main, sub) titles and its converted (main, sub) pair. The enum's
      `values()` become a sequence of these, in declaration order. */
  datatype TaxonomyEntry = TaxonomyEntry(
    originalMainCategory: string,
    originalSubCategory: string,
    convertedMainCategory: string,
    convertedSubCategory: string)

  /** The record handed to the persistence service, fields in the order the
      crawler passes them to `new Lecture(...)`. */
  datatype Lecture = Lecture(
    title: string,
    source: string,
    sourceId: string,
    url: string,
    price: string,
    instructor: string,
    imageUrl: string,
    mainCategory: string,
    subCategory: string,
    convertedMainCategory: string,
    convertedSubCategory: string,
    keywords: string,
    description: string)

  /** The stream filter: `equals` on both original titles. */
  predicate Matches(e: TaxonomyEntry, main: string, sub: string) {
    e.originalMainCategory == main && e.originalSubCategory == sub
  }

  /** `Arrays.stream(Category.values()).filter(...).findFirst()`. */
  function FindCategory(table: seq<TaxonomyEntry>, main: string, sub: string): (r: Option<TaxonomyEntry>)
    ensures r.None? <==> forall i :: 0 <= i < |table| ==> !Matches(table[i], main, sub)
    ensures r.Some? ==> exists i :: 0 <= i < |table| && table[i] == r.value && Matches(r.value, main, sub)
                                    && forall j :: 0 <= j < i ==> !Matches(table[j], main, sub)
  {
    if table == [] then None
    else if Matches(table[0], main, sub) then Some(table[0])
    else
      var r := FindCategory(table[1..], main, sub);
      assert r.Some? ==> exists i :: 0 <= i < |table[1..]| && table[1..][i] == r.value
                                     && forall j :: 0 <= j < i ==> !Matches(table[1..][j], main, sub);
      r
  }

  /** The lecture built from a kept course and the entry its categories map to. */
  function ToLecture(c: ColosoCourse, e: TaxonomyEntry): Lecture
  {
    Lecture(c.title, Source, Decimal(c.id), c.url, Decimal(c.price), c.instructor, c.imageUrl,
            c.mainCategory, c.subCategory, e.convertedMainCategory, e.convertedSubCategory,
            c.keywords, c.description)
  }

  /** The ids of `cs`. */
  function IdsOf(cs: seq<ColosoCourse>): set<Long>
  {
    set c | c in cs :: c.id
  }

  /** The loop of `convertCourses` from some point on, `seen` being the ids met so
      far: an id already seen is skipped, otherwise it is marked seen and the course
      is converted if its categories map, dropped if not. */
  function ConvertFrom(cs: seq<ColosoCourse>, seen: set<Long>, table: seq<TaxonomyEntry>): seq<Lecture>
  {
    if cs == [] then []
    else
      var c := cs[0];
      if c.id in seen then ConvertFrom(cs[1..], seen, table)
      else
        match FindCategory(table, c.mainCategory, c.subCategory)
        case None => ConvertFrom(cs[1..], seen + {c.id}, table)
        case Some(e) => [ToLecture(c, e)] + ConvertFrom(cs[1..], seen + {c.id}, table)
  }

  /** What `convertCourses` returns. */
  function Lectures(cs: seq<ColosoCourse>, table: seq<TaxonomyEntry>): seq<Lecture>
  {
    ConvertFrom(cs, {}, table)
  }

  /** `convertCourses`: one pass over the courses with a `HashSet` of seen ids,
      appending to the list of lectures. */
  method ConvertCourses(courses: seq<ColosoCourse>, table: seq<TaxonomyEntry>) returns (lectures: seq<Lecture>)
    ensures lectures == Lectures(courses, table)
  {
    lectures := [];
    var sourceIds: set<Long> := {};
    var i := 0;
    while i < |courses|
      invariant 0 <= i <= |courses|
      invariant lectures + ConvertFrom(courses[i..], sourceIds, table) == Lectures(courses, table)
    {
      var course := courses[i];
      assert courses[i..][1..] == courses[i + 1..];
      var id := course.id;
      if id in sourceIds {
        i := i + 1;
        continue;
      } else {
        sourceIds := sourceIds + {id};
      }
      var converted := FindCategory(table, course.mainCategory, course.subCategory);
      if converted.None? {
        i := i + 1;
        continue;
      }
      lectures := lectures + [ToLecture(course, converted.value)];
      i := i + 1;
    }
  }

  /** A call never yields more lectures than courses it reads. */
  lemma {:induction false} ConvertFromLength(cs: seq<ColosoCourse>, seen: set<Long>, table: seq<TaxonomyEntry>)
    ensures |ConvertFrom(cs, seen, table)| <= |cs|
  {
    if cs != [] {
      ConvertFromLength(cs[1..], seen, table);
      ConvertFromLength(cs[1..], seen + {cs[0].id}, table);
    }
  }

  /** Every lecture carries the numeral of a course id that was not seen before. */
  lemma {:induction false} ConvertFromFresh(cs: seq<ColosoCourse>, seen: set<Long>, table: seq<TaxonomyEntry>)
    ensures forall l :: l in ConvertFrom(cs, seen, table) ==>
              exists c :: c in cs && c.id !in seen && l.sourceId == Decimal(c.id)
  {
    if cs != [] {
      var c := cs[0];
      if c.id in seen {
        ConvertFromFresh(cs[1..], seen, table);
      } else {
        ConvertFromFresh(cs[1..], seen + {c.id}, table);
      }
    }
  }

  /** No two lectures of `r` share a source id. */
  predicate DistinctIds(r: seq<Lecture>) {
    forall i, j :: 0 <= i < j < |r| ==> r[i].sourceId != r[j].sourceId
  }

  /** No two lectures share a source id. */
  lemma {:induction false} ConvertFromDistinct(cs: seq<ColosoCourse>, seen: set<Long>, table: seq<TaxonomyEntry>)
    ensures DistinctIds(ConvertFrom(cs, seen, table))
  {
    if cs != [] {
      var c := cs[0];
      if c.id in seen {
        ConvertFromDistinct(cs[1..], seen, table);
        assert ConvertFrom(cs, seen, table) == ConvertFrom(cs[1..], seen, table);
      } else {
        var rest := ConvertFrom(cs[1..], seen + {c.id}, table);
        ConvertFromDistinct(cs[1..], seen + {c.id}, table);
        match FindCategory(table, c.mainCategory, c.subCategory)
        case None =>
          assert ConvertFrom(cs, seen, table) == rest;
        case Some(e) =>
          ConvertFromFresh(cs[1..], seen + {c.id}, table);
          forall l | l in rest ensures l.sourceId != Decimal(c.id) {
            var d :| d in cs[1..] && d.id !in seen + {c.id} && l.sourceId == Decimal(d.id);
            DecimalInjective(d.id, c.id);
          }
          var r := [ToLecture(c, e)] + rest;
          assert ConvertFrom(cs, seen, table) == r;
          forall i, j | 0 <= i < j < |r| ensures r[i].sourceId != r[j].sourceId {
            assert r[j] == rest[j - 1];
            if i > 0 {
              assert r[i] == rest[i - 1];
            } else {
              assert rest[j - 1] in rest;
              assert r[i].sourceId == Decimal(c.id);
            }
          }
      }
    }
  }

  /** `convertCourses` produces at most one lecture per course id, and no more
      lectures than courses. */
  lemma LecturesDistinct(cs: seq<ColosoCourse>, table: seq<TaxonomyEntry>)
    ensures |Lectures(cs, table)| <= |cs|
    ensures DistinctIds(Lectures(cs, table))
  {
    ConvertFromLength(cs, {}, table);
    ConvertFromDistinct(cs, {}, table);
  }

  /** Processing `a + b` is processing `a`, then `b` with `a`'s ids marked seen:
      lectures keep the order of the courses they come from. */
  lemma {:induction false} ConvertFromAppend(a: seq<ColosoCourse>, b: seq<ColosoCourse>, seen: set<Long>, table: seq<TaxonomyEntry>)
    ensures ConvertFrom(a + b, seen, table) == ConvertFrom(a, seen, table) + ConvertFrom(b, seen + IdsOf(a), table)
  {
    if a == [] {
      assert a + b == b;
      assert IdsOf(a) == {};
      assert seen + IdsOf(a) == seen;
    } else {
      var c := a[0];
      assert (a + b)[0] == c;
      assert (a + b)[1..] == a[1..] + b;
      IdsOfCons(a);
      if c.id in seen {
        ConvertFromAppend(a[1..], b, seen, table);
        assert seen + IdsOf(a[1..]) == seen + IdsOf(a);
      } else {
        var seen' := seen + {c.id};
        ConvertFromAppend(a[1..], b, seen', table);
        assert seen' + IdsOf(a[1..]) == seen + IdsOf(a);
        var tail := ConvertFrom(a[1..] + b, seen', table);
        match FindCategory(table, c.mainCategory, c.subCategory)
        case None =>
          assert ConvertFrom(a + b, seen, table) == tail;
        case Some(e) =>
          assert ConvertFrom(a + b, seen, table) == [ToLecture(c, e)] + tail;
          ConcatAssoc([ToLecture(c, e)], ConvertFrom(a[1..], seen', table), ConvertFrom(b, seen' + IdsOf(a[1..]), table));
      }
    }
  }

  lemma IdsOfCons(a: seq<ColosoCourse>)
    requires a != []
    ensures IdsOf(a) == {a[0].id} + IdsOf(a[1..])
  {
    assert forall d :: d in a <==> d == a[0] || d in a[1..];
  }

  /** Course `k` is the first with its id: the id is not among those before it. */
  predicate IsFirst(cs: seq<ColosoCourse>, k: nat)
    requires k < |cs|
  {
    cs[k].id !in IdsOf(cs[..k])
  }

  /** Being first with an id means that no earlier course has that id. */
  lemma IsFirstMeans(cs: seq<ColosoCourse>, k: nat)
    requires k < |cs|
    ensures IsFirst(cs, k) <==> forall j :: 0 <= j < k ==> cs[j].id != cs[k].id
  {
    if !IsFirst(cs, k) {
      var c :| c in cs[..k] && c.id == cs[k].id;
      var j :| 0 <= j < k && cs[..k][j] == c;
      assert cs[j].id == cs[k].id;
    }
    if exists j :: 0 <= j < k && cs[j].id == cs[k].id {
      var j :| 0 <= j < k && cs[j].id == cs[k].id;
      assert cs[..k][j] == cs[j];
      assert cs[k].id in IdsOf(cs[..k]);
    }
  }

  /** What course `k` contributes in the reference reading: a lecture exactly when
      it is the first with its id and its categories map. */
  function Contribution(cs: seq<ColosoCourse>, table: seq<TaxonomyEntry>, k: nat): seq<Lecture>
    requires k < |cs|
  {
    if !IsFirst(cs, k) then []
    else match FindCategory(table, cs[k].mainCategory, cs[k].subCategory)
      case None => []
      case Some(e) => [ToLecture(cs[k], e)]
  }

  /** The contributions of all courses, in input order. */
  function Contributions(cs: seq<ColosoCourse>, table: seq<TaxonomyEntry>): (parts: seq<seq<Lecture>>)
    ensures |parts| == |cs|
    ensures forall i :: 0 <= i < |cs| ==> parts[i] == Contribution(cs, table, i)
  {
    seq(|cs|, i requires 0 <= i < |cs| => Contribution(cs, table, i))
  }

  /** The parts, one after the other. */
  function Flatten<T>(parts: seq<seq<T>>): seq<T>
  {
    if parts == [] then [] else parts[0] + Flatten(parts[1..])
  }

  lemma {:induction false} FlattenHas<T>(parts: seq<seq<T>>, i: nat, x: T)
    requires i < |parts| && x in parts[i]
    ensures x in Flatten(parts)
  {
    if i > 0 {
      assert parts[1..][i - 1] == parts[i];
      FlattenHas(parts[1..], i - 1, x);
    }
  }

  lemma {:induction false} FlattenFrom<T>(parts: seq<seq<T>>, x: T) returns (i: nat)
    requires x in Flatten(parts)
    ensures i < |parts| && x in parts[i]
  {
    if x in parts[0] {
      i := 0;
    } else {
      var j := FlattenFrom(parts[1..], x);
      i := j + 1;
    }
  }

  /** Reference reading of `convertCourses`, with no seen-set: the contributions of
      courses `k` onwards, in order. */
  function Kept(cs: seq<ColosoCourse>, table: seq<TaxonomyEntry>, k: nat): seq<Lecture>
    requires k <= |cs|
  {
    Flatten(Contributions(cs, table)[k..])
  }

  lemma KeptStep(cs: seq<ColosoCourse>, table: seq<TaxonomyEntry>, k: nat)
    requires k < |cs|
    ensures Kept(cs, table, k) == Contribution(cs, table, k) + Kept(cs, table, k + 1)
  {
    var parts := Contributions(cs, table);
    assert parts[k..][0] == parts[k] && parts[k..][1..] == parts[k + 1..];
  }

  lemma IdsOfPrefix(cs: seq<ColosoCourse>, k: nat)
    requires k < |cs|
    ensures cs[k].id in IdsOf(cs[..k]) <==> !IsFirst(cs, k)
    ensures IdsOf(cs[..k + 1]) == IdsOf(cs[..k]) + {cs[k].id}
  {
    assert cs[..k + 1] == cs[..k] + [cs[k]];
  }

  /** The seen-set loop, started at course `k` with the ids of the courses before
      it, yields exactly the reference contributions of courses `k` onwards. */
  lemma {:induction false} ConvertFromIsKept(cs: seq<ColosoCourse>, table: seq<TaxonomyEntry>, k: nat)
    requires k <= |cs|
    ensures ConvertFrom(cs[k..], IdsOf(cs[..k]), table) == Kept(cs, table, k)
    decreases |cs| - k
  {
    if k == |cs| {
      assert Contributions(cs, table)[k..] == [];
    } else {
      ConvertFromIsKept(cs, table, k + 1);
      KeptStep(cs, table, k);
      IdsOfPrefix(cs, k);
      var rest := cs[k..];
      assert rest[0] == cs[k] && rest[1..] == cs[k + 1..];
      var seen := IdsOf(cs[..k]);
      if !IsFirst(cs, k) {
        assert ConvertFrom(rest, seen, table) == ConvertFrom(cs[k + 1..], seen, table);
        assert seen == IdsOf(cs[..k + 1]);
      } else {
        assert ConvertFrom(rest, seen, table)
            == Contribution(cs, table, k) + ConvertFrom(cs[k + 1..], seen + {cs[k].id}, table);
      }
    }
  }

  /** `convertCourses` keeps exactly the first course of each id whose categories
      map, in input order. */
  lemma LecturesAreKept(cs: seq<ColosoCourse>, table: seq<TaxonomyEntry>)
    ensures Lectures(cs, table) == Kept(cs, table, 0)
  {
    ConvertFromIsKept(cs, table, 0);
    assert cs[0..] == cs;
    assert IdsOf(cs[..0]) == {};
  }

  /** What one course contributes, stated as membership. */
  lemma ContributionHas(cs: seq<ColosoCourse>, table: seq<TaxonomyEntry>, i: nat, l: Lecture)
    requires i < |cs|
    ensures l in Contribution(cs, table, i) <==>
              IsFirst(cs, i) && FindCategory(table, cs[i].mainCategory, cs[i].subCategory).Some?
              && l == ToLecture(cs[i], FindCategory(table, cs[i].mainCategory, cs[i].subCategory).value)
  {
  }

  /** A lecture is in the output exactly when it is built from the first course of
      its id, and that course's categories map to the entry it carries. */
  lemma LecturesMembers(cs: seq<ColosoCourse>, table: seq<TaxonomyEntry>, l: Lecture)
    ensures l in Lectures(cs, table) <==>
              exists i :: 0 <= i < |cs| && IsFirst(cs, i)
                          && FindCategory(table, cs[i].mainCategory, cs[i].subCategory).Some?
                          && l == ToLecture(cs[i], FindCategory(table, cs[i].mainCategory, cs[i].subCategory).value)
  {
    LecturesAreKept(cs, table);
    var parts := Contributions(cs, table);
    assert parts[0..] == parts;
    if l in Lectures(cs, table) {
      var i := FlattenFrom(parts, l);
      ContributionHas(cs, table, i, l);
    }
    if exists i :: 0 <= i < |cs| && IsFirst(cs, i)
                   && FindCategory(table, cs[i].mainCategory, cs[i].subCategory).Some?
                   && l == ToLecture(cs[i], FindCategory(table, cs[i].mainCategory, cs[i].subCategory).value) {
      var i :| 0 <= i < |cs| && IsFirst(cs, i)
               && FindCategory(table, cs[i].mainCategory, cs[i].subCategory).Some?
               && l == ToLecture(cs[i], FindCategory(table, cs[i].mainCategory, cs[i].subCategory).value);
      ContributionHas(cs, table, i, l);
      FlattenHas(parts, i, l);
    }
  }

  /** First seen wins: for the first course with some id, the only lecture that can
      carry that id is the one built from it, and there is none when its categories
      do not map, whatever the later courses with the same id hold. */
  lemma FirstSeenWins(cs: seq<ColosoCourse>, table: seq<TaxonomyEntry>, k: nat, l: Lecture)
    requires k < |cs| && IsFirst(cs, k)
    requires l in Lectures(cs, table) && l.sourceId == Decimal(cs[k].id)
    ensures FindCategory(table, cs[k].mainCategory, cs[k].subCategory).Some?
    ensures l == ToLecture(cs[k], FindCategory(table, cs[k].mainCategory, cs[k].subCategory).value)
  {
    LecturesMembers(cs, table, l);
    var i :| 0 <= i < |cs| && IsFirst(cs, i)
             && FindCategory(table, cs[i].mainCategory, cs[i].subCategory).Some?
             && l == ToLecture(cs[i], FindCategory(table, cs[i].mainCategory, cs[i].subCategory).value);
    DecimalInjective(cs[i].id, cs[k].id);
    IsFirstMeans(cs, i);
    IsFirstMeans(cs, k);
  }

  /** Every kept lecture is tagged "coloso", carries its course's id and price as
      numerals that read back to them, and copies the other fields unchanged. */
  lemma LectureFields(c: ColosoCourse, e: TaxonomyEntry)
    ensures var l := ToLecture(c, e);
            && l.source == "coloso"
            && ParseDecimal(l.sourceId) == c.id && ParseDecimal(l.price) == c.price
            && l.title == c.title && l.url == c.url && l.instructor == c.instructor
            && l.imageUrl == c.imageUrl && l.keywords == c.keywords && l.description == c.description
            && l.mainCategory == c.mainCategory && l.subCategory == c.subCategory
            && l.convertedMainCategory == e.convertedMainCategory
            && l.convertedSubCategory == e.convertedSubCategory
  {
    DecimalRoundTrip(c.id);
    DecimalRoundTrip(c.price);
  }
}

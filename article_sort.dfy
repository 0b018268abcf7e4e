/** The article history table: sorting by a chosen key with a comparator built from
    JavaScript's `>` and `<`. */
module ArticleSort {
  import opened Wrappers
  import Text
  import CalendarDate
  import StringOrder

  datatype Article = Article(id: int, title: string, views: int, engagement: int,
                             publishDate: string, status: string, category: string)

  /** A sort key: a number, NaN (the time of an Invalid Date), or a lowercased title. */
  datatype Key = Num(n: int) | NaN | Title(s: string)

  /** The key `sortBy` selects; any unknown key sorts by views. A publish date becomes
      the number of its day, which orders like its `getTime()`. */
  function KeyOf(a: Article, sortBy: string): (k: Key)
    ensures k.Title? <==> sortBy == "title"
    ensures sortBy == "title" ==> k == Title(Text.Lower(a.title))
    ensures sortBy != "engagement" && sortBy != "date" && sortBy != "title" ==> k == Num(a.views)
    ensures sortBy == "engagement" ==> k == Num(a.engagement)
    ensures sortBy == "date" ==> (k.NaN? <==> CalendarDate.ParseIsoDate(a.publishDate).None?)
  {
    if sortBy == "engagement" then Num(a.engagement)
    else if sortBy == "date" then
      (match CalendarDate.ParseIsoDate(a.publishDate)
       case Some(d) => Num(CalendarDate.DayNumber(d))
       case None => NaN)
    else if sortBy == "title" then Title(Text.Lower(a.title))
    else Num(a.views)
  }

  /** JavaScript's `a < b` on two keys of one kind; any comparison with NaN is false. */
  predicate KeyLess(a: Key, b: Key) {
    match (a, b)
    case (Num(x), Num(y)) => x < y
    case (Title(x), Title(y)) => StringOrder.Less(x, y)
    case _ => false
  }

  /** By date, one key is less than another exactly when its publish date comes earlier
      in the calendar; an unreadable date is NaN and less than nothing, nor anything less
      than it. */
  lemma DateKeyOrder(a: Article, b: Article)
    ensures var pa, pb := CalendarDate.ParseIsoDate(a.publishDate), CalendarDate.ParseIsoDate(b.publishDate);
            pa.Some? && pb.Some? ==>
              (KeyLess(KeyOf(a, "date"), KeyOf(b, "date")) <==> CalendarDate.Earlier(pa.value, pb.value))
    ensures CalendarDate.ParseIsoDate(a.publishDate).None? ==>
              !KeyLess(KeyOf(a, "date"), KeyOf(b, "date")) && !KeyLess(KeyOf(b, "date"), KeyOf(a, "date"))
  {
    var pa, pb := CalendarDate.ParseIsoDate(a.publishDate), CalendarDate.ParseIsoDate(b.publishDate);
    if pa.Some? && pb.Some? {
      var x, y := pa.value, pb.value;
      if CalendarDate.Earlier(x, y) {
        CalendarDate.DayNumberOrder(x, y);
      } else if CalendarDate.Earlier(y, x) {
        CalendarDate.DayNumberOrder(y, x);
      } else {
        assert x == y;
      }
    }
  }

  /** The comparator: ascending gives 1 when `a > b`, descending gives 1 when `a < b`, and
      every other case gives -1. */
  function Compare(a: Article, b: Article, sortBy: string, sortOrder: string): (r: int)
    ensures r == 1 || r == -1
  {
    var ka := KeyOf(a, sortBy);
    var kb := KeyOf(b, sortBy);
    if sortOrder == "asc" then (if KeyLess(kb, ka) then 1 else -1)
    else (if KeyLess(ka, kb) then 1 else -1)
  }

  /** The order the comparator intends: ascending keys for `asc`, descending otherwise. */
  predicate Before(a: Article, b: Article, sortBy: string, sortOrder: string) {
    if sortOrder == "asc" then KeyLess(KeyOf(a, sortBy), KeyOf(b, sortBy))
    else KeyLess(KeyOf(b, sortBy), KeyOf(a, sortBy))
  }

  /** Keys that can be told apart: not NaN and different. */
  predicate Distinct(a: Article, b: Article, sortBy: string) {
    !KeyOf(a, sortBy).NaN? && !KeyOf(b, sortBy).NaN? && KeyOf(a, sortBy) != KeyOf(b, sortBy)
  }

  /** On distinct keys the comparator is consistent: it puts `a` first exactly when the
      intended order does, and it answers the swapped question the other way. */
  lemma CompareDistinct(a: Article, b: Article, sortBy: string, sortOrder: string)
    requires Distinct(a, b, sortBy)
    ensures Compare(a, b, sortBy, sortOrder) == -1 <==> Before(a, b, sortBy, sortOrder)
    ensures Compare(b, a, sortBy, sortOrder) == -Compare(a, b, sortBy, sortOrder)
  {
    var ka := KeyOf(a, sortBy);
    var kb := KeyOf(b, sortBy);
    if ka.Title? {
      StringOrder.Total(ka.s, kb.s);
    }
  }

  /** On equal keys the comparator answers -1 both ways round: it names no order. */
  lemma CompareTies(a: Article, b: Article, sortBy: string, sortOrder: string)
    requires KeyOf(a, sortBy) == KeyOf(b, sortBy)
    ensures Compare(a, b, sortBy, sortOrder) == -1 && Compare(b, a, sortBy, sortOrder) == -1
  {
    if KeyOf(a, sortBy).Title? {
      StringOrder.Irreflexive(KeyOf(a, sortBy).s);
    }
  }

  lemma BeforeTransitive(a: Article, b: Article, c: Article, sortBy: string, sortOrder: string)
    requires Before(a, b, sortBy, sortOrder) && Before(b, c, sortBy, sortOrder)
    ensures Before(a, c, sortBy, sortOrder)
  {
    var ka, kb, kc := KeyOf(a, sortBy), KeyOf(b, sortBy), KeyOf(c, sortBy);
    if ka.Title? {
      if sortOrder == "asc" {
        StringOrder.Transitive(ka.s, kb.s, kc.s);
      } else {
        StringOrder.Transitive(kc.s, kb.s, ka.s);
      }
    }
  }

  /** Inserting into a sorted list: `x` goes before the first element the comparator
      does not put before it. */
  function Insert(x: Article, s: seq<Article>, sortBy: string, sortOrder: string): seq<Article> {
    if s == [] || Compare(x, s[0], sortBy, sortOrder) < 0 then [x] + s
    else [s[0]] + Insert(x, s[1..], sortBy, sortOrder)
  }

  /** `[...articleData].sort(comparator)`, as an insertion sort. */
  function Sort(s: seq<Article>, sortBy: string, sortOrder: string): seq<Article> {
    if s == [] then [] else Insert(s[0], Sort(s[1..], sortBy, sortOrder), sortBy, sortOrder)
  }

  predicate Sorted(s: seq<Article>, sortBy: string, sortOrder: string) {
    forall i, j :: 0 <= i < j < |s| ==> Before(s[i], s[j], sortBy, sortOrder)
  }

  predicate AllDistinct(s: seq<Article>, sortBy: string) {
    forall i, j :: 0 <= i < j < |s| ==> Distinct(s[i], s[j], sortBy)
  }

  lemma {:induction false} InsertPermutes(x: Article, s: seq<Article>, sortBy: string, sortOrder: string)
    ensures multiset(Insert(x, s, sortBy, sortOrder)) == multiset(s) + multiset{x}
  {
    if !(s == [] || Compare(x, s[0], sortBy, sortOrder) < 0) {
      InsertPermutes(x, s[1..], sortBy, sortOrder);
      assert s == [s[0]] + s[1..];
    }
  }

  /** Sorting rearranges the articles and nothing more. */
  lemma {:induction false} SortPermutes(s: seq<Article>, sortBy: string, sortOrder: string)
    ensures multiset(Sort(s, sortBy, sortOrder)) == multiset(s)
  {
    if s != [] {
      SortPermutes(s[1..], sortBy, sortOrder);
      InsertPermutes(s[0], Sort(s[1..], sortBy, sortOrder), sortBy, sortOrder);
      assert s == [s[0]] + s[1..];
    }
  }

  lemma SortedCons(x: Article, s: seq<Article>, sortBy: string, sortOrder: string)
    requires Sorted(s, sortBy, sortOrder)
    requires forall j :: 0 <= j < |s| ==> Before(x, s[j], sortBy, sortOrder)
    ensures Sorted([x] + s, sortBy, sortOrder)
  {
    var r := [x] + s;
    forall i, j | 0 <= i < j < |r| ensures Before(r[i], r[j], sortBy, sortOrder) {
      if i == 0 {
        assert r[j] == s[j - 1];
      } else {
        assert r[i] == s[i - 1] && r[j] == s[j - 1];
      }
    }
  }

  /** The head of a sorted list goes before everything of its tail with `x` inserted,
      when it goes before `x`. */
  lemma HeadBeforeInsert(x: Article, s: seq<Article>, sortBy: string, sortOrder: string)
    requires s != [] && Sorted(s, sortBy, sortOrder) && Before(s[0], x, sortBy, sortOrder)
    ensures forall j :: 0 <= j < |Insert(x, s[1..], sortBy, sortOrder)| ==>
              Before(s[0], Insert(x, s[1..], sortBy, sortOrder)[j], sortBy, sortOrder)
  {
    var rest := Insert(x, s[1..], sortBy, sortOrder);
    InsertPermutes(x, s[1..], sortBy, sortOrder);
    forall j | 0 <= j < |rest| ensures Before(s[0], rest[j], sortBy, sortOrder) {
      assert rest[j] in multiset(rest);
      if rest[j] != x {
        assert rest[j] in s[1..];
        var k :| 0 <= k < |s[1..]| && s[1..][k] == rest[j];
        assert s[k + 1] == rest[j];
      }
    }
  }

  lemma {:induction false} InsertSorted(x: Article, s: seq<Article>, sortBy: string, sortOrder: string)
    requires Sorted(s, sortBy, sortOrder)
    requires forall y :: y in s ==> Distinct(x, y, sortBy)
    ensures Sorted(Insert(x, s, sortBy, sortOrder), sortBy, sortOrder)
  {
    if s == [] {
    } else if Compare(x, s[0], sortBy, sortOrder) < 0 {
      CompareDistinct(x, s[0], sortBy, sortOrder);
      forall j | 0 <= j < |s| ensures Before(x, s[j], sortBy, sortOrder) {
        if j > 0 {
          BeforeTransitive(x, s[0], s[j], sortBy, sortOrder);
        }
      }
      SortedCons(x, s, sortBy, sortOrder);
    } else {
      CompareDistinct(x, s[0], sortBy, sortOrder);
      CompareDistinct(s[0], x, sortBy, sortOrder);
      InsertSorted(x, s[1..], sortBy, sortOrder);
      HeadBeforeInsert(x, s, sortBy, sortOrder);
      SortedCons(s[0], Insert(x, s[1..], sortBy, sortOrder), sortBy, sortOrder);
    }
  }

  /** With distinct keys the sorted list is in the intended order: ascending for `asc`,
      descending for any other order. */
  lemma {:induction false} SortOrders(s: seq<Article>, sortBy: string, sortOrder: string)
    requires AllDistinct(s, sortBy)
    ensures Sorted(Sort(s, sortBy, sortOrder), sortBy, sortOrder)
  {
    if s != [] {
      var tail := Sort(s[1..], sortBy, sortOrder);
      SortOrders(s[1..], sortBy, sortOrder);
      SortPermutes(s[1..], sortBy, sortOrder);
      forall y | y in tail ensures Distinct(s[0], y, sortBy) {
        assert y in multiset(tail);
        assert y in s[1..];
        var k :| 0 <= k < |s[1..]| && s[1..][k] == y;
        assert s[k + 1] == y;
      }
      InsertSorted(s[0], tail, sortBy, sortOrder);
    }
  }
}

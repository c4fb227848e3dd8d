/**
 * What `MongoDb.GetAll` (internal/data/mongo.go:182-239) asks the server for:
 * the filter document of its eight branches, the sort on one column in one
 * direction, and the skip/limit window.
 */
module Query {
  import opened GoTypes
  import opened Entities
  import opened Strings
  import Seqs

  // ---------------------------------------------------------------------------
  // Filtering
  // ---------------------------------------------------------------------------

  datatype TextField = TitleField | AuthorField

  /** One entry of a filter document. */
  datatype Clause =
    | Regex(field: TextField, pattern: string) // {field: {"$regex": pattern, "$options": "i"}}
    | All(values: seq<string>)                 // {"genres": {"$all": values}}

  function TextOf(b: Book, f: TextField): string {
    match f
    case TitleField => b.title
    case AuthorField => b.author
  }

  /**
   * A stored book satisfies one clause. The pattern is read literally; `$all`
   * with an empty list matches no document.
   */
  predicate Holds(b: Book, c: Clause) {
    match c
    case Regex(f, p) => ContainsFold(TextOf(b, f), p)
    case All(vs) => |vs| > 0 && forall v | v in vs :: v in b.genres.Elems()
  }

  /** A filter document matches when every clause holds (an empty one matches all). */
  predicate Satisfies(b: Book, filter: seq<Clause>) {
    forall c | c in filter :: Holds(b, c)
  }

  /**
   * The single rule behind the eight branches: every non-empty text filter
   * matches its field ignoring case, and a non-empty genre list is contained
   * in the book's genres.
   */
  predicate Wanted(b: Book, title: string, author: string, genres: seq<string>) {
    && (title != "" ==> ContainsFold(b.title, title))
    && (author != "" ==> ContainsFold(b.author, author))
    && (|genres| != 0 ==> forall g | g in genres :: g in b.genres.Elems())
  }

  /** The filter document built by the branch of GetAll that the inputs select. */
  function Selector(title: string, author: string, genres: seq<string>): (filter: seq<Clause>)
    ensures |filter| <= 3
    ensures |filter| == 0 <==> title == "" && author == "" && |genres| == 0
  {
    if title != "" && author != "" && |genres| != 0 then
      [Regex(TitleField, title), Regex(AuthorField, author), All(genres)]
    else if title != "" && author != "" then
      [Regex(TitleField, title), Regex(AuthorField, author)]
    else if title != "" && |genres| != 0 then
      [Regex(TitleField, title), All(genres)]
    else if author != "" && |genres| != 0 then
      [Regex(AuthorField, author), All(genres)]
    else if title != "" then
      [Regex(TitleField, title)]
    else if author != "" then
      [Regex(AuthorField, author)]
    else if |genres| != 0 then
      [All(genres)]
    else
      []
  }

  /** Each of the eight branches selects exactly the books the single rule wants. */
  lemma SelectorIsWanted(title: string, author: string, genres: seq<string>, b: Book)
    ensures Satisfies(b, Selector(title, author, genres)) <==> Wanted(b, title, author, genres)
  {
    var f := Selector(title, author, genres);
    var t, a, g := Regex(TitleField, title), Regex(AuthorField, author), All(genres);
    assert Holds(b, t) <==> ContainsFold(b.title, title);
    assert Holds(b, a) <==> ContainsFold(b.author, author);
    assert |genres| != 0 ==> (Holds(b, g) <==> forall x | x in genres :: x in b.genres.Elems());
    if title != "" && author != "" && |genres| != 0 {
      assert f == [t, a, g];
      assert Satisfies(b, f) <==> Holds(b, t) && Holds(b, a) && Holds(b, g);
    } else if title != "" && author != "" {
      assert f == [t, a] && |genres| == 0;
      assert Satisfies(b, f) <==> Holds(b, t) && Holds(b, a);
    } else if title != "" && |genres| != 0 {
      assert f == [t, g] && author == "";
      assert Satisfies(b, f) <==> Holds(b, t) && Holds(b, g);
    } else if author != "" && |genres| != 0 {
      assert f == [a, g] && title == "";
      assert Satisfies(b, f) <==> Holds(b, a) && Holds(b, g);
    } else if title != "" {
      assert f == [t] && author == "" && |genres| == 0;
      assert Satisfies(b, f) <==> Holds(b, t);
    } else if author != "" {
      assert f == [a] && title == "" && |genres| == 0;
      assert Satisfies(b, f) <==> Holds(b, a);
    } else if |genres| != 0 {
      assert f == [g] && title == "" && author == "";
      assert Satisfies(b, f) <==> Holds(b, g);
    } else {
      assert f == [] && title == "" && author == "";
    }
  }

  function Matcher(filter: seq<Clause>): Book -> bool {
    b => Satisfies(b, filter)
  }

  /** The documents a `Find` with `filter` visits, in natural order. */
  function Matching(books: seq<Book>, filter: seq<Clause>): (r: seq<Book>)
    ensures forall b :: b in r <==> b in books && Satisfies(b, filter)
    ensures multiset(r) <= multiset(books)
    ensures forall b :: multiset(r)[b] == if Satisfies(b, filter) then multiset(books)[b] else 0
  {
    Seqs.Filter(books, Matcher(filter))
  }

  // ---------------------------------------------------------------------------
  // Ordering
  // ---------------------------------------------------------------------------

  /** The column to sort on: a stored field name, or one no book has. */
  datatype Column = ById | ByTitle | ByAuthor | ByYear | BySize | Unknown

  /** The field behind a sort-column name (the driver stores field names in lower case). */
  function ColumnOf(name: string): Column {
    if name == "id" then ById
    else if name == "title" then ByTitle
    else if name == "author" then ByAuthor
    else if name == "year" then ByYear
    else if name == "size" then BySize
    else Unknown
  }

  /** A sort key; numbers order before strings, as in the server's comparison order. */
  datatype SortKey = Num(n: int) | Text(s: string)

  function KeyOf(c: Column, b: Book): SortKey {
    match c
    case ById => Num(b.id)
    case ByTitle => Text(b.title)
    case ByAuthor => Text(b.author)
    case ByYear => Num(b.year)
    case BySize => Num(b.size)
    case Unknown => Num(0)
  }

  /** Lexicographic order on code points. */
  predicate StrLe(s: string, t: string) {
    |s| == 0 || (|t| > 0 && (s[0] < t[0] || (s[0] == t[0] && StrLe(s[1..], t[1..]))))
  }

  lemma {:induction false} StrLeTotal(s: string, t: string)
    ensures StrLe(s, t) || StrLe(t, s)
    decreases |s|
  {
    if |s| > 0 && |t| > 0 && s[0] == t[0] {
      StrLeTotal(s[1..], t[1..]);
    }
  }

  lemma {:induction false} StrLeTrans(s: string, t: string, u: string)
    requires StrLe(s, t) && StrLe(t, u)
    ensures StrLe(s, u)
    decreases |s|
  {
    if |s| > 0 && s[0] == t[0] && t[0] == u[0] {
      StrLeTrans(s[1..], t[1..], u[1..]);
    }
  }

  predicate KeyLe(x: SortKey, y: SortKey) {
    match (x, y)
    case (Num(m), Num(n)) => m <= n
    case (Text(s), Text(t)) => StrLe(s, t)
    case (Num(_), Text(_)) => true
    case (Text(_), Num(_)) => false
  }

  lemma KeyLeTotal(x: SortKey, y: SortKey)
    ensures KeyLe(x, y) || KeyLe(y, x)
  {
    if x.Text? && y.Text? { StrLeTotal(x.s, y.s); }
  }

  lemma KeyLeTrans(x: SortKey, y: SortKey, z: SortKey)
    requires KeyLe(x, y) && KeyLe(y, z)
    ensures KeyLe(x, z)
  {
    if x.Text? && y.Text? && z.Text? { StrLeTrans(x.s, y.s, z.s); }
  }

  /** `a` may come before `b` when sorting on `c`, ascending or descending. */
  predicate InOrder(c: Column, ascending: bool, a: Book, b: Book) {
    if ascending then KeyLe(KeyOf(c, a), KeyOf(c, b)) else KeyLe(KeyOf(c, b), KeyOf(c, a))
  }

  lemma InOrderTotal(c: Column, ascending: bool, a: Book, b: Book)
    ensures InOrder(c, ascending, a, b) || InOrder(c, ascending, b, a)
  {
    KeyLeTotal(KeyOf(c, a), KeyOf(c, b));
  }

  lemma InOrderTrans(c: Column, ascending: bool, a: Book, b: Book, d: Book)
    requires InOrder(c, ascending, a, b) && InOrder(c, ascending, b, d)
    ensures InOrder(c, ascending, a, d)
  {
    if ascending {
      KeyLeTrans(KeyOf(c, a), KeyOf(c, b), KeyOf(c, d));
    } else {
      KeyLeTrans(KeyOf(c, d), KeyOf(c, b), KeyOf(c, a));
    }
  }

  predicate Sorted(s: seq<Book>, c: Column, ascending: bool) {
    forall i, j | 0 <= i < j < |s| :: InOrder(c, ascending, s[i], s[j])
  }

  /** `x` placed before the first element it may precede. */
  function InsertSorted(x: Book, s: seq<Book>, c: Column, ascending: bool): (r: seq<Book>)
    ensures multiset(r) == multiset(s) + multiset{x}
  {
    if |s| == 0 then [x]
    else if InOrder(c, ascending, x, s[0]) then [x] + s
    else
      assert s == [s[0]] + s[1..];
      [s[0]] + InsertSorted(x, s[1..], c, ascending)
  }

  /** An element of a sequence that is sorted after its head may follow the head. */
  lemma HeadFirst(s: seq<Book>, c: Column, ascending: bool, y: Book)
    requires Sorted(s, c, ascending) && |s| > 0 && y in multiset(s[1..])
    ensures InOrder(c, ascending, s[0], y)
  {
    var j :| 0 <= j < |s[1..]| && s[1..][j] == y;
    assert s[j + 1] == y;
  }

  /** A head that may precede every element of a sorted tail gives a sorted sequence. */
  lemma ConsKeepsSorted(h: Book, rest: seq<Book>, c: Column, ascending: bool)
    requires Sorted(rest, c, ascending)
    requires forall y | y in multiset(rest) :: InOrder(c, ascending, h, y)
    ensures Sorted([h] + rest, c, ascending)
  {
    var r := [h] + rest;
    forall i, j | 0 <= i < j < |r| ensures InOrder(c, ascending, r[i], r[j]) {
      assert r[j] == rest[j - 1];
      if i == 0 {
        assert rest[j - 1] in multiset(rest);
      } else {
        assert r[i] == rest[i - 1];
      }
    }
  }

  lemma {:induction false} InsertKeepsSorted(x: Book, s: seq<Book>, c: Column, ascending: bool)
    requires Sorted(s, c, ascending)
    ensures Sorted(InsertSorted(x, s, c, ascending), c, ascending)
    decreases |s|
  {
    if |s| == 0 {
    } else if InOrder(c, ascending, x, s[0]) {
      forall y | y in multiset(s) ensures InOrder(c, ascending, x, y) {
        assert s == [s[0]] + s[1..];
        if y != s[0] {
          HeadFirst(s, c, ascending, y);
          InOrderTrans(c, ascending, x, s[0], y);
        }
      }
      ConsKeepsSorted(x, s, c, ascending);
    } else {
      InOrderTotal(c, ascending, x, s[0]);
      var rest := InsertSorted(x, s[1..], c, ascending);
      InsertKeepsSorted(x, s[1..], c, ascending);
      forall y | y in multiset(rest) ensures InOrder(c, ascending, s[0], y) {
        if y != x { HeadFirst(s, c, ascending, y); }
      }
      ConsKeepsSorted(s[0], rest, c, ascending);
    }
  }

  /**
   * The documents in sort order; documents with equal keys keep their natural
   * order (the server leaves that order unspecified).
   */
  function Sort(s: seq<Book>, c: Column, ascending: bool): (r: seq<Book>)
    ensures multiset(r) == multiset(s)
    ensures Sorted(r, c, ascending)
  {
    if |s| == 0 then []
    else
      assert s == [s[0]] + s[1..];
      var rest := Sort(s[1..], c, ascending);
      InsertKeepsSorted(s[0], rest, c, ascending);
      InsertSorted(s[0], rest, c, ascending)
  }

  // ---------------------------------------------------------------------------
  // Skip and limit
  // ---------------------------------------------------------------------------

  /** `SetSkip(offset).SetLimit(limit)`; a limit of 0 means no limit. */
  function Window(s: seq<Book>, offset: nat, limit: nat): (w: seq<Book>)
    ensures limit > 0 ==> |w| <= limit
    ensures offset >= |s| ==> w == []
    ensures offset < |s| ==> |w| == (if limit == 0 || offset + limit > |s| then |s| - offset else limit)
    ensures forall i | 0 <= i < |w| :: w[i] == s[offset + i]
  {
    var rest := if offset <= |s| then s[offset..] else [];
    if limit == 0 || limit >= |rest| then rest else rest[..limit]
  }

  /** The page of books one GetAll returns, in cursor order. */
  function Page(books: seq<Book>, filter: seq<Clause>, c: Column, ascending: bool, offset: nat, limit: nat): seq<Book> {
    Window(Sort(Matching(books, filter), c, ascending), offset, limit)
  }

  /** Every book on a page is stored and satisfies the filter. */
  lemma PageSound(books: seq<Book>, filter: seq<Clause>, c: Column, ascending: bool, offset: nat, limit: nat, b: Book)
    requires b in Page(books, filter, c, ascending, offset, limit)
    ensures b in books && Satisfies(b, filter)
  {
    var sorted := Sort(Matching(books, filter), c, ascending);
    var w := Page(books, filter, c, ascending, offset, limit);
    var i :| 0 <= i < |w| && w[i] == b;
    assert sorted[offset + i] == b;
    assert b in multiset(sorted);
  }

  /** A page is in sort order. */
  lemma PageSorted(books: seq<Book>, filter: seq<Clause>, c: Column, ascending: bool, offset: nat, limit: nat)
    ensures Sorted(Page(books, filter, c, ascending, offset, limit), c, ascending)
  {
    var sorted := Sort(Matching(books, filter), c, ascending);
    var w := Page(books, filter, c, ascending, offset, limit);
    forall i, j | 0 <= i < j < |w| ensures InOrder(c, ascending, w[i], w[j]) {
      assert w[i] == sorted[offset + i] && w[j] == sorted[offset + j];
    }
  }

  /** Without skip and limit, a page holds exactly the matching books, each as often as stored. */
  lemma PageComplete(books: seq<Book>, filter: seq<Clause>, c: Column, ascending: bool)
    ensures multiset(Page(books, filter, c, ascending, 0, 0)) == multiset(Matching(books, filter))
  {
    var sorted := Sort(Matching(books, filter), c, ascending);
    assert Page(books, filter, c, ascending, 0, 0) == sorted[0..];
    assert sorted[0..] == sorted;
  }

  /** The page size: at most `limit`, and short only at the end of the matching books. */
  lemma PageLength(books: seq<Book>, filter: seq<Clause>, c: Column, ascending: bool, offset: nat, limit: nat)
    ensures var n := |Matching(books, filter)|;
      |Page(books, filter, c, ascending, offset, limit)|
      == if offset >= n then 0 else if limit == 0 || offset + limit > n then n - offset else limit
  {
    var m := Matching(books, filter);
    assert |Sort(m, c, ascending)| == |m| by {
      assert |multiset(Sort(m, c, ascending))| == |multiset(m)|;
    }
  }
}

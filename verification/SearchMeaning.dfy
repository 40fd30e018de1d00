/**
 What the search queries ask of the database, read off the SQL and, independently, off the search
 parameters: which rows are found, in what order, and which of them make the page.
 */
module SearchMeaning {
  import opened Strings
  import opened Wrappers
  import opened SearchQuery
  import opened SearchFilters

  /** A torrent with the content it is matched to; what is not known of it is None. */
  datatype Row = Row(
    infoHash: string,
    contentType: Option<string>, contentSource: Option<string>, contentId: Option<string>,
    releaseYear: Option<int>,
    languages: set<string>,
    extensions: set<string>,          // of its files
    createdAt: int, updatedAt: int, size: int, name: string,
    filesCount: Option<int>, seeders: Option<int>, leechers: Option<int>)

  /** What only the database knows: whether a row matches a query and how well, the instant that a
      text denotes, and the place of a text in its collation. */
  datatype Database = Database(
    matches: (Row, string) -> bool,
    rank: (Row, string) -> real,
    instant: string -> int,
    place: string -> int)

  // ---------- what a search asks for ----------

  /** The filters of a search, field by field; an empty one asks for nothing. */
  ghost predicate Wanted(db: Database, p: Search, row: Row) {
    && (p.hasQuery ==> db.matches(row, p.tsquery))
    && (p.infoHashes != [] ==> row.infoHash in p.infoHashes)
    && (p.contentTypes != [] ==> row.contentType.Some? && row.contentType.value in p.contentTypes)
    && ((exists i :: 0 <= i < |p.fileTypes| && p.fileTypes[i] != []) ==>
          exists i, ext :: 0 <= i < |p.fileTypes| && ext in p.fileTypes[i] && ext in row.extensions)
    && (p.languages != [] ==> exists l :: l in p.languages && l in row.languages)
    && (p.releaseYears != [] ==> row.releaseYear.Some? && row.releaseYear.value in p.releaseYears)
    && (p.contentRefs != [] ==>
          exists ref :: ref in p.contentRefs && row.contentType == Some(ref.kind)
            && row.contentSource == Some(ref.source) && row.contentId == Some(ref.id))
    && (p.barrier != "" ==> row.createdAt <= db.instant(p.barrier))
  }

  /** What a row is sorted by under a field. */
  function Measure(db: Database, p: Search, f: SortField, row: Row): real {
    match f
    case Relevance => if p.hasQuery then db.rank(row, p.tsquery) else row.createdAt as real
    case ByCreated => row.createdAt as real
    case ByUpdated => row.updatedAt as real
    case BySize => row.size as real
    case ByFiles => (if row.filesCount.Some? then row.filesCount.value else 0) as real
    case BySeeders => (if row.seeders.Some? then row.seeders.value else -1) as real
    case ByLeechers => (if row.leechers.Some? then row.leechers.value else -1) as real
    case ByName => db.place(row.name) as real
    case ByInfoHash => db.place(row.infoHash) as real
    case Unknown => 0.0
  }

  predicate Ahead(x: real, y: real, desc: bool) { if desc then x > y else x < y }

  /** Sort key i, which is of a known field, puts a before b. */
  ghost predicate Decides(db: Database, p: Search, i: nat, a: Row, b: Row)
    requires i < |p.orderBy|
  {
    && !p.orderBy[i].field.Unknown?
    && Ahead(Measure(db, p, p.orderBy[i].field, a), Measure(db, p, p.orderBy[i].field, b), p.orderBy[i].desc)
  }

  ghost predicate SameUpTo(db: Database, p: Search, n: nat, a: Row, b: Row)
    requires n <= |p.orderBy|
  {
    forall i :: 0 <= i < n ==> Measure(db, p, p.orderBy[i].field, a) == Measure(db, p, p.orderBy[i].field, b)
  }

  ghost predicate NoneKnown(p: Search) { forall i :: 0 <= i < |p.orderBy| ==> p.orderBy[i].field.Unknown? }

  /** The order of the rows: by the first sort key that tells them apart, in its direction, then, if
      the last key is of a known field, by info hash in that direction; without any key of a known
      field by relevance, best first, and info hash. */
  ghost predicate WantedBefore(db: Database, p: Search, a: Row, b: Row) {
    if NoneKnown(p) then
      var x, y := Measure(db, p, Relevance, a), Measure(db, p, Relevance, b);
      x > y || (x == y && db.place(a.infoHash) > db.place(b.infoHash))
    else
      || (exists i :: 0 <= i < |p.orderBy| && SameUpTo(db, p, i, a, b) && Decides(db, p, i, a, b))
      || (SameUpTo(db, p, |p.orderBy|, a, b) && !Last(p).field.Unknown?
          && Ahead(db.place(a.infoHash) as real, db.place(b.infoHash) as real, Last(p).desc))
  }

  function Last(p: Search): SortKey
    requires p.orderBy != []
  {
    p.orderBy[|p.orderBy| - 1]
  }

  /** Two rows that no sort key tells apart are still ordered, by their info hashes, exactly unless the
      last of the sort keys is of an unknown field and another one is not. */
  lemma TiesAreBrokenExactly(db: Database, p: Search, a: Row, b: Row)
    requires SameUpTo(db, p, |p.orderBy|, a, b) && db.place(a.infoHash) != db.place(b.infoHash)
    requires Measure(db, p, Relevance, a) == Measure(db, p, Relevance, b)
    ensures WantedBefore(db, p, a, b) || WantedBefore(db, p, b, a) <==> NoneKnown(p) || !Last(p).field.Unknown?
  {
  }

  // ---------- reading the SQL ----------

  datatype Cond =
    | QueryMatches(q: Value) | OneOf(column: Column, vs: seq<Value>) | HasFile(alternatives: seq<seq<Value>>)
    | HasLanguage(vs: seq<Value>) | RefIn(refs: seq<seq<Value>>) | CreatedNoLater(barrier: Value)

  datatype Key = RankKey(q: Value, desc: bool) | ColumnKey(column: Column, desc: bool)

  datatype Read = Read(conds: seq<Cond>, keys: seq<Key>, limit: Option<Value>, skip: Option<Value>)

  predicate Starts(t: Template, s: Sql) { t != [] && t[0] == Lit(s) }

  /** Values separated by commas. */
  function ReadValues(t: Template): (r: (seq<Value>, Template))
    ensures |r.1| <= |t|
  {
    if t == [] || !t[0].Val? then ([], t)
    else if Starts(t[1..], Comma) then
      var (vs, rest) := ReadValues(t[2..]);
      ([t[0].v] + vs, rest)
    else ([t[0].v], t[1..])
  }

  /** Bracketed lists of values with `sep` between them. */
  function ReadLists(t: Template, open: Sql, close: Sql, sep: Sql): (r: Option<(seq<seq<Value>>, Template)>)
    ensures r.Some? ==> |r.value.1| < |t|
    decreases |t|
  {
    if !Starts(t, open) then None
    else
      var (vs, rest) := ReadValues(t[1..]);
      if !Starts(rest, close) then None
      else if !Starts(rest[1..], sep) then Some(([vs], rest[1..]))
      else
        var more := ReadLists(rest[2..], open, close, sep);
        if more.None? then None else Some(([vs] + more.value.0, more.value.1))
  }

  function ReadCond(t: Template): (r: Option<(Cond, Template)>)
    ensures r.Some? ==> |r.value.1| < |t|
  {
    if t == [] || t[0].Val? then None
    else
      match t[0].s
      case TsvMatches =>
        if |t| > 2 && t[1].Val? && t[2] == Lit(AsTsquery) then Some((QueryMatches(t[1].v), t[3..])) else None
      case CreatedBy =>
        if |t| > 2 && t[1].Val? && t[2] == Lit(AsTimestamp) then Some((CreatedNoLater(t[1].v), t[3..])) else None
      case In(column) =>
        var (vs, rest) := ReadValues(t[1..]);
        if Starts(rest, Close) then Some((OneOf(column, vs), rest[1..])) else None
      case AnyLanguage =>
        var (vs, rest) := ReadValues(t[1..]);
        if Starts(rest, CloseBracket) then Some((HasLanguage(vs), rest[1..])) else None
      case Open =>
        var files := ReadLists(t[1..], ExistsFile, CloseExists, Or);
        if files.Some? && Starts(files.value.1, Close) then Some((HasFile(files.value.0), files.value.1[1..])) else None
      case RefsIn =>
        var refs := ReadLists(t[1..], Open, Close, Comma);
        if refs.Some? && Starts(refs.value.1, Close) then Some((RefIn(refs.value.0), refs.value.1[1..])) else None
      case _ => None
  }

  function ReadConds(t: Template): Option<(seq<Cond>, Template)>
    decreases |t|
  {
    var first := ReadCond(t);
    if first.None? then None
    else if !Starts(first.value.1, And) then Some(([first.value.0], first.value.1))
    else
      var more := ReadConds(first.value.1[1..]);
      if more.None? then None else Some(([first.value.0] + more.value.0, more.value.1))
  }

  function ReadWhere(t: Template): Option<(seq<Cond>, Template)> {
    if Starts(t, Where) then ReadConds(t[1..]) else Some(([], t))
  }

  /** A sort key, with the info hash after it where that breaks ties. */
  function ReadKey(t: Template): (r: Option<(seq<Key>, Template)>)
    ensures r.Some? ==> |r.value.1| < |t|
  {
    if t == [] || t[0].Val? then None
    else if t[0].s.By? then Some(Tied(ColumnKey(t[0].s.column, t[0].s.desc), t[1..]))
    else if t[0].s.RankOf? && |t| > 2 && t[1].Val? && t[2].Lit? && t[2].s.RankDir? then
      Some(Tied(RankKey(t[1].v, t[2].s.desc), t[3..]))
    else None
  }

  function Tied(key: Key, rest: Template): (r: (seq<Key>, Template))
    ensures |r.1| <= |rest|
  {
    if rest != [] && rest[0].Lit? && rest[0].s.TieBreak? then ([key, ColumnKey(InfoHash, rest[0].s.desc)], rest[1..])
    else ([key], rest)
  }

  function ReadKeys(t: Template): Option<(seq<Key>, Template)>
    decreases |t|
  {
    var first := ReadKey(t);
    if first.None? then None
    else if !Starts(first.value.1, Comma) then first
    else
      var more := ReadKeys(first.value.1[1..]);
      if more.None? then None else Some((first.value.0 + more.value.0, more.value.1))
  }

  function ReadOrder(t: Template): Option<(seq<Key>, Template)> {
    if Starts(t, OrderBy) then ReadKeys(t[1..]) else Some(([], t))
  }

  /** What comes after the order: a limit and an offset, an offset, or nothing. */
  function ReadTail(t: Template): Option<(Option<Value>, Option<Value>)> {
    if t == [] then Some((None, None))
    else if |t| == 2 && t[0] == Lit(Offset) && t[1].Val? then Some((None, Some(t[1].v)))
    else if |t| == 4 && t[0] == Lit(Limit) && t[1].Val? && t[2] == Lit(Offset) && t[3].Val? then
      Some((Some(t[1].v), Some(t[3].v)))
    else None
  }

  function ReadQuery(t: Template): Option<Read> {
    var where := ReadWhere(t);
    if where.None? then None
    else
      var order := ReadOrder(where.value.1);
      if order.None? then None
      else
        var tail := ReadTail(order.value.1);
        if tail.None? then None else Some(Read(where.value.0, order.value.0, tail.value.0, tail.value.1))
  }

  // ---------- what the SQL means ----------

  function TextOf(v: Value): string { if v.Str? then v.s else "" }

  ghost predicate Holds(db: Database, row: Row, c: Cond) {
    match c
    case QueryMatches(q) => db.matches(row, TextOf(q))
    case OneOf(InfoHash, vs) => Str(row.infoHash) in vs
    case OneOf(ContentType, vs) => row.contentType.Some? && Str(row.contentType.value) in vs
    case OneOf(ReleaseYear, vs) => row.releaseYear.Some? && Num(row.releaseYear.value) in vs
    case OneOf(_, _) => false
    case HasFile(alternatives) => exists vs, ext :: vs in alternatives && ext in row.extensions && Str(ext) in vs
    case HasLanguage(vs) => exists l :: l in row.languages && Str(l) in vs
    case RefIn(refs) =>
      row.contentType.Some? && row.contentSource.Some? && row.contentId.Some?
      && [Str(row.contentType.value), Str(row.contentSource.value), Str(row.contentId.value)] in refs
    case CreatedNoLater(barrier) => row.createdAt <= db.instant(TextOf(barrier))
  }

  ghost predicate HoldsAll(db: Database, row: Row, conds: seq<Cond>) {
    forall i :: 0 <= i < |conds| ==> Holds(db, row, conds[i])
  }

  /** The value of an expression; years and content types are not ordered by. */
  function ColumnValue(db: Database, row: Row, column: Column): real {
    match column
    case InfoHash => db.place(row.infoHash) as real
    case CreatedAt => row.createdAt as real
    case UpdatedAt => row.updatedAt as real
    case Size => row.size as real
    case FilesCount => (if row.filesCount.Some? then row.filesCount.value else 0) as real
    case Seeders => (if row.seeders.Some? then row.seeders.value else -1) as real
    case Leechers => (if row.leechers.Some? then row.leechers.value else -1) as real
    case Name => db.place(row.name) as real
    case ContentType => 0.0
    case ReleaseYear => 0.0
  }

  function KeyValue(db: Database, row: Row, k: Key): real {
    match k
    case RankKey(q, _) => db.rank(row, TextOf(q))
    case ColumnKey(column, _) => ColumnValue(db, row, column)
  }

  /** Rows are compared by the first key that tells them apart. */
  predicate Precedes(db: Database, keys: seq<Key>, a: Row, b: Row) {
    keys != [] &&
    var x, y := KeyValue(db, a, keys[0]), KeyValue(db, b, keys[0]);
    Ahead(x, y, keys[0].desc) || (x == y && Precedes(db, keys[1..], a, b))
  }

  /** The query finds exactly the rows a search wants. */
  ghost predicate FindsWanted(r: Read, p: Search) {
    forall db: Database, row: Row :: HoldsAll(db, row, r.conds) <==> Wanted(db, p, row)
  }

  ghost predicate OrdersAsWanted(r: Read, p: Search) {
    forall db: Database, a: Row, b: Row :: Precedes(db, r.keys, a, b) <==> WantedBefore(db, p, a, b)
  }

  // ---------- the filters are read back ----------

  lemma ListedSplit(vs: seq<Value>, rest: Template)
    requires |vs| > 1
    ensures Listed(vs) + rest == [Val(vs[0]), Lit(Comma)] + (Listed(vs[1..]) + rest)
  {
    assert Singles(vs)[0] == [Val(vs[0])] && Singles(vs)[1..] == Singles(vs[1..]);
    assert Listed(vs) == [Val(vs[0])] + [Lit(Comma)] + Listed(vs[1..]);
  }

  lemma CommaReads(v: Value, more: Template)
    ensures var t := [Val(v), Lit(Comma)] + more;
            ReadValues(t) == ([v] + ReadValues(more).0, ReadValues(more).1)
  {
    var t := [Val(v), Lit(Comma)] + more;
    assert t[1..][0] == Lit(Comma) && t[2..] == more;
  }

  lemma {:induction false} ReadValuesOf(vs: seq<Value>, rest: Template)
    requires vs != [] && !Starts(rest, Comma) && (rest == [] || rest[0].Lit?)
    ensures ReadValues(Listed(vs) + rest) == (vs, rest)
  {
    if |vs| == 1 {
      var t := [Val(vs[0])] + rest;
      assert Singles(vs) == [[Val(vs[0])]] && Listed(vs) + rest == t && t[1..] == rest;
      assert vs == [vs[0]];
    } else {
      ReadValuesOf(vs[1..], rest);
      ListedSplit(vs, rest);
      CommaReads(vs[0], Listed(vs[1..]) + rest);
      assert [vs[0]] + vs[1..] == vs;
    }
  }

  /** A bracketed list, followed by anything. */
  lemma BracketsRead(open: Sql, vs: seq<Value>, close: Sql, rest: Template)
    requires vs != [] && close != Comma
    ensures var t := [Lit(open)] + Listed(vs) + [Lit(close)] + rest;
            && t[0] == Lit(open)
            && ReadValues(t[1..]) == (vs, [Lit(close)] + rest) && ([Lit(close)] + rest)[1..] == rest
  {
    var t := [Lit(open)] + Listed(vs) + [Lit(close)] + rest;
    assert t[1..] == Listed(vs) + ([Lit(close)] + rest);
    ReadValuesOf(vs, [Lit(close)] + rest);
  }

  function ListTpl(open: Sql, vs: seq<Value>, close: Sql): Template { [Lit(open)] + Listed(vs) + [Lit(close)] }

  function ListTpls(open: Sql, lists: seq<seq<Value>>, close: Sql): seq<Template> {
    if lists == [] then [] else [ListTpl(open, lists[0], close)] + ListTpls(open, lists[1..], close)
  }

  lemma OneListReads(open: Sql, vs: seq<Value>, close: Sql, sep: Sql, rest: Template)
    requires vs != [] && close != Comma && !Starts(rest, sep)
    ensures ReadLists(ListTpl(open, vs, close) + rest, open, close, sep) == Some(([vs], rest))
  {
    BracketsRead(open, vs, close, rest);
  }

  lemma MoreListsRead(open: Sql, vs: seq<Value>, close: Sql, sep: Sql, more: Template, lists: seq<seq<Value>>,
                      rest: Template)
    requires vs != [] && close != Comma && ReadLists(more, open, close, sep) == Some((lists, rest))
    ensures ReadLists(ListTpl(open, vs, close) + ([Lit(sep)] + more), open, close, sep) == Some(([vs] + lists, rest))
  {
    var t := [Lit(sep)] + more;
    BracketsRead(open, vs, close, t);
    assert t[1..] == more && ([Lit(close)] + t)[2..] == more;
  }

  lemma JoinSplit(ts: seq<Template>, sep: Template, rest: Template)
    requires |ts| > 1
    ensures Join(ts, sep) + rest == ts[0] + (sep + (Join(ts[1..], sep) + rest))
  {
    Assoc4(ts[0], sep, Join(ts[1..], sep), rest);
  }

  lemma {:induction false} ReadListsOf(open: Sql, lists: seq<seq<Value>>, close: Sql, sep: Sql, rest: Template)
    requires lists != [] && (forall i :: 0 <= i < |lists| ==> lists[i] != []) && close != Comma && !Starts(rest, sep)
    ensures ReadLists(Join(ListTpls(open, lists, close), [Lit(sep)]) + rest, open, close, sep) == Some((lists, rest))
  {
    var ts := ListTpls(open, lists, close);
    assert ts[0] == ListTpl(open, lists[0], close) && ts[1..] == ListTpls(open, lists[1..], close);
    assert [lists[0]] + lists[1..] == lists;
    if |lists| == 1 {
      assert |ts| == 1 && Join(ts, [Lit(sep)]) == ts[0] && lists == [lists[0]];
      OneListReads(open, lists[0], close, sep, rest);
    } else {
      ReadListsOf(open, lists[1..], close, sep, rest);
      assert |ts| > 1;
      JoinSplit(ts, [Lit(sep)], rest);
      MoreListsRead(open, lists[0], close, sep, Join(ts[1..], [Lit(sep)]) + rest, lists[1..], rest);
    }
  }

  /** The parts of something in brackets, followed by anything. */
  lemma Peeled(open: Sql, inner: Template, close: Sql, rest: Template)
    ensures var t := [Lit(open)] + inner + [Lit(close)] + rest;
            t != [] && t[0] == Lit(open) && t[1..] == inner + ([Lit(close)] + rest)
    ensures ([Lit(close)] + rest)[1..] == rest && Starts([Lit(close)] + rest, close)
  {
  }

  /** Whatever follows it, the template reads as the condition. */
  ghost predicate Reads(t: Template, c: Cond) { forall rest: Template :: ReadCond(t + rest) == Some((c, rest)) }

  ghost predicate AllRead(ts: seq<Template>, cs: seq<Cond>) {
    |ts| == |cs| && forall i :: 0 <= i < |ts| ==> Reads(ts[i], cs[i])
  }

  lemma SingleReads(open: Sql, v: Value, close: Sql)
    requires (open == TsvMatches && close == AsTsquery) || (open == CreatedBy && close == AsTimestamp)
    ensures Reads([Lit(open), Val(v), Lit(close)], if open == TsvMatches then QueryMatches(v) else CreatedNoLater(v))
  {
    var t := [Lit(open), Val(v), Lit(close)];
    forall rest: Template
      ensures ReadCond(t + rest) == Some((if open == TsvMatches then QueryMatches(v) else CreatedNoLater(v), rest))
    {
      assert (t + rest)[0] == Lit(open) && (t + rest)[1] == Val(v) && (t + rest)[2] == Lit(close);
      assert (t + rest)[3..] == rest;
    }
  }

  lemma InReads(column: Column, vs: seq<Value>)
    requires vs != []
    ensures Reads(InTpl(column, vs), OneOf(column, vs))
  {
    forall rest: Template ensures ReadCond(InTpl(column, vs) + rest) == Some((OneOf(column, vs), rest)) {
      BracketsRead(In(column), vs, Close, rest);
    }
  }

  lemma LanguagesRead(languages: seq<string>)
    requires languages != []
    ensures Reads(LanguageTpl(languages), HasLanguage(Strs(languages)))
  {
    forall rest: Template
      ensures ReadCond(LanguageTpl(languages) + rest) == Some((HasLanguage(Strs(languages)), rest))
    {
      BracketsRead(AnyLanguage, Strs(languages), CloseBracket, rest);
    }
  }

  /** The lists of extensions that are not empty. */
  function Alternatives(fileTypes: seq<seq<string>>): seq<seq<Value>> {
    if fileTypes == [] then []
    else (if fileTypes[0] == [] then [] else [Strs(fileTypes[0])]) + Alternatives(fileTypes[1..])
  }

  lemma {:induction false} AlternativesAre(fileTypes: seq<seq<string>>)
    ensures ExtTpls(fileTypes) == ListTpls(ExistsFile, Alternatives(fileTypes), CloseExists)
    ensures forall i :: 0 <= i < |Alternatives(fileTypes)| ==> Alternatives(fileTypes)[i] != []
    ensures forall vs :: vs in Alternatives(fileTypes) <==>
              exists i :: 0 <= i < |fileTypes| && fileTypes[i] != [] && vs == Strs(fileTypes[i])
  {
    if fileTypes != [] {
      var rest := fileTypes[1..];
      AlternativesAre(rest);
      if fileTypes[0] == [] {
        assert [] + ExtTpls(rest) == ExtTpls(rest) && [] + Alternatives(rest) == Alternatives(rest);
      } else {
        assert Alternatives(fileTypes)[1..] == Alternatives(rest);
      }
      forall vs ensures vs in Alternatives(fileTypes) <==>
                          exists i :: 0 <= i < |fileTypes| && fileTypes[i] != [] && vs == Strs(fileTypes[i]) {
        if vs in Alternatives(rest) {
          var i :| 0 <= i < |rest| && rest[i] != [] && vs == Strs(rest[i]);
          assert fileTypes[i + 1] == rest[i];
        }
        if i :| 0 <= i < |fileTypes| && fileTypes[i] != [] && vs == Strs(fileTypes[i]) {
          assert i > 0 ==> rest[i - 1] == fileTypes[i];
        }
      }
    }
  }

  lemma FilesRead(fileTypes: seq<seq<string>>)
    requires ExtTpls(fileTypes) != []
    ensures Reads(FileTpl(fileTypes), HasFile(Alternatives(fileTypes)))
  {
    var lists := Alternatives(fileTypes);
    AlternativesAre(fileTypes);
    forall rest: Template ensures ReadCond(FileTpl(fileTypes) + rest) == Some((HasFile(lists), rest)) {
      Peeled(Open, Join(ExtTpls(fileTypes), [Lit(Or)]), Close, rest);
      ReadListsOf(ExistsFile, lists, CloseExists, Or, [Lit(Close)] + rest);
    }
  }

  function RefValues(ref: ContentRef): seq<Value> { [Str(ref.kind), Str(ref.source), Str(ref.id)] }

  function AllRefValues(refs: seq<ContentRef>): seq<seq<Value>> {
    seq(|refs|, i requires 0 <= i < |refs| => RefValues(refs[i]))
  }

  lemma RefIsList(ref: ContentRef)
    ensures RefTpl(ref) == ListTpl(Open, RefValues(ref), Close)
  {
    var vs := RefValues(ref);
    assert Singles(vs)[1..] == Singles(vs[1..]) && Singles(vs[1..])[1..] == Singles(vs[2..]);
    assert Listed(vs[2..]) == [Val(vs[2])];
    assert Listed(vs[1..]) == [Val(vs[1])] + [Lit(Comma)] + [Val(vs[2])];
    assert Listed(vs) == [Val(vs[0])] + [Lit(Comma)] + Listed(vs[1..]);
  }

  lemma {:induction false} RefsAreLists(refs: seq<ContentRef>)
    ensures RefTpls(refs) == ListTpls(Open, AllRefValues(refs), Close)
  {
    if refs != [] {
      RefIsList(refs[0]);
      RefsAreLists(refs[1..]);
      assert AllRefValues(refs)[1..] == AllRefValues(refs[1..]);
    }
  }

  lemma RefsRead(refs: seq<ContentRef>)
    requires refs != []
    ensures Reads(RefsTpl(refs), RefIn(AllRefValues(refs)))
  {
    var lists := AllRefValues(refs);
    RefsAreLists(refs);
    forall rest: Template ensures ReadCond(RefsTpl(refs) + rest) == Some((RefIn(lists), rest)) {
      Peeled(RefsIn, Join(RefTpls(refs), [Lit(Comma)]), Close, rest);
      ReadListsOf(Open, lists, Close, Comma, [Lit(Close)] + rest);
    }
  }

  function CondsBefore(p: Search): seq<Cond> {
    One(p.hasQuery, QueryMatches(Str(p.tsquery))) + One(p.infoHashes != [], OneOf(InfoHash, Strs(p.infoHashes)))
  }

  function CondsTypes(p: Search): seq<Cond> { One(p.contentTypes != [], OneOf(ContentType, Strs(p.contentTypes))) }

  function CondsLast(p: Search): seq<Cond> {
    One(p.contentRefs != [], RefIn(AllRefValues(p.contentRefs))) + One(p.barrier != "", CreatedNoLater(Str(p.barrier)))
  }

  function CondsAfter(p: Search): seq<Cond> {
    One(ExtTpls(p.fileTypes) != [], HasFile(Alternatives(p.fileTypes)))
    + One(p.languages != [], HasLanguage(Strs(p.languages)))
    + One(p.releaseYears != [], OneOf(ReleaseYear, Nums(p.releaseYears)))
    + CondsLast(p)
  }

  /** The conditions of a search, in the order of its clauses. */
  function CondsOf(p: Search): seq<Cond> { CondsBefore(p) + CondsTypes(p) + CondsAfter(p) }

  function One(c: bool, cond: Cond): seq<Cond> { if c then [cond] else [] }

  lemma ReadBoth(a: seq<Template>, x: seq<Cond>, b: seq<Template>, y: seq<Cond>)
    requires AllRead(a, x) && AllRead(b, y)
    ensures AllRead(a + b, x + y)
  {
  }

  lemma LastRead(p: Search)
    ensures AllRead(LastFilters(p), CondsLast(p))
  {
    var refs, barrier := RefIn(AllRefValues(p.contentRefs)), CreatedNoLater(Str(p.barrier));
    if p.contentRefs != [] {
      RefsRead(p.contentRefs);
    }
    SingleReads(CreatedBy, Str(p.barrier), AsTimestamp);
    ReadBoth(When(p.contentRefs != [], RefsTpl(p.contentRefs)), One(p.contentRefs != [], refs),
             When(p.barrier != "", BarrierTpl(p.barrier)), One(p.barrier != "", barrier));
  }

  lemma AfterRead(p: Search)
    ensures AllRead(AfterTypes(p), CondsAfter(p))
  {
    var ts1, cs1 := When(ExtTpls(p.fileTypes) != [], FileTpl(p.fileTypes)),
                    One(ExtTpls(p.fileTypes) != [], HasFile(Alternatives(p.fileTypes)));
    var ts2, cs2 := When(p.languages != [], LanguageTpl(p.languages)),
                    One(p.languages != [], HasLanguage(Strs(p.languages)));
    var ts3, cs3 := When(p.releaseYears != [], InTpl(ReleaseYear, Nums(p.releaseYears))),
                    One(p.releaseYears != [], OneOf(ReleaseYear, Nums(p.releaseYears)));
    if ExtTpls(p.fileTypes) != [] {
      FilesRead(p.fileTypes);
    }
    if p.languages != [] {
      LanguagesRead(p.languages);
    }
    if p.releaseYears != [] {
      InReads(ReleaseYear, Nums(p.releaseYears));
    }
    ReadBoth(ts1, cs1, ts2, cs2);
    ReadBoth(ts1 + ts2, cs1 + cs2, ts3, cs3);
    LastRead(p);
    ReadBoth(ts1 + ts2 + ts3, cs1 + cs2 + cs3, LastFilters(p), CondsLast(p));
  }

  lemma BeforeRead(p: Search)
    ensures AllRead(BeforeTypes(p), CondsBefore(p))
  {
    SingleReads(TsvMatches, Str(p.tsquery), AsTsquery);
    if p.infoHashes != [] {
      InReads(InfoHash, Strs(p.infoHashes));
    }
    ReadBoth(When(p.hasQuery, QueryTpl(p.tsquery)), One(p.hasQuery, QueryMatches(Str(p.tsquery))),
             When(p.infoHashes != [], InTpl(InfoHash, Strs(p.infoHashes))),
             One(p.infoHashes != [], OneOf(InfoHash, Strs(p.infoHashes))));
  }

  lemma TypesRead(p: Search)
    ensures AllRead(When(p.contentTypes != [], TypesTpl(p)), CondsTypes(p))
  {
    if p.contentTypes != [] {
      InReads(ContentType, Strs(p.contentTypes));
    }
  }

  lemma FiltersRead(p: Search)
    ensures AllRead(Filters(p), CondsOf(p))
  {
    BeforeRead(p);
    TypesRead(p);
    AfterRead(p);
    ReadBoth(BeforeTypes(p), CondsBefore(p), When(p.contentTypes != [], TypesTpl(p)), CondsTypes(p));
    ReadBoth(BeforeTypes(p) + When(p.contentTypes != [], TypesTpl(p)), CondsBefore(p) + CondsTypes(p),
             AfterTypes(p), CondsAfter(p));
  }

  lemma MoreCondsRead(t: Template, c: Cond, more: Template, cs: seq<Cond>, rest: Template)
    requires Reads(t, c) && ReadConds(more) == Some((cs, rest))
    ensures ReadConds(t + ([Lit(And)] + more)) == Some(([c] + cs, rest))
  {
    var after := [Lit(And)] + more;
    assert ReadCond(t + after) == Some((c, after));
    assert after[1..] == more;
  }

  lemma {:induction false} ReadCondsOf(ts: seq<Template>, cs: seq<Cond>, rest: Template)
    requires ts != [] && AllRead(ts, cs) && !Starts(rest, And)
    ensures ReadConds(Join(ts, [Lit(And)]) + rest) == Some((cs, rest))
  {
    assert Reads(ts[0], cs[0]);
    if |ts| == 1 {
      assert ReadCond(ts[0] + rest) == Some((cs[0], rest));
      assert cs == [cs[0]];
    } else {
      ReadCondsOf(ts[1..], cs[1..], rest);
      JoinSplit(ts, [Lit(And)], rest);
      MoreCondsRead(ts[0], cs[0], Join(ts[1..], [Lit(And)]) + rest, cs[1..], rest);
      assert [cs[0]] + cs[1..] == cs;
    }
  }

  lemma WherePeeled(ts: seq<Template>, rest: Template)
    requires ts != []
    ensures Starts(WhereTpl(ts) + rest, Where) && (WhereTpl(ts) + rest)[1..] == Join(ts, [Lit(And)]) + rest
  {
  }

  lemma WhereOf(ts: seq<Template>, cs: seq<Cond>, rest: Template)
    requires AllRead(ts, cs) && !Starts(rest, And) && !Starts(rest, Where)
    ensures ReadWhere(WhereTpl(ts) + rest) == Some((cs, rest))
  {
    if ts == [] {
      assert [] + rest == rest;
    } else {
      WherePeeled(ts, rest);
      ReadCondsOf(ts, cs, rest);
    }
  }

  lemma WhereReads(p: Search, rest: Template)
    requires !Starts(rest, And) && !Starts(rest, Where)
    ensures ReadWhere(WhereTpl(Filters(p)) + rest) == Some((CondsOf(p), rest))
  {
    FiltersRead(p);
    WhereOf(Filters(p), CondsOf(p), rest);
  }

  // ---------- what the conditions say ----------

  lemma StrsHave(items: seq<string>, s: string)
    ensures Str(s) in Strs(items) <==> s in items
  {
    if s in items {
      var i :| 0 <= i < |items| && items[i] == s;
      assert Strs(items)[i] == Str(s);
    }
  }

  lemma NumsHave(items: seq<int>, n: int)
    ensures Num(n) in Nums(items) <==> n in items
  {
    if n in items {
      var i :| 0 <= i < |items| && items[i] == n;
      assert Nums(items)[i] == Num(n);
    }
  }

  lemma SomeExtensions(fileTypes: seq<seq<string>>)
    ensures ExtTpls(fileTypes) != [] <==> exists i :: 0 <= i < |fileTypes| && fileTypes[i] != []
  {
    var lists := Alternatives(fileTypes);
    AlternativesAre(fileTypes);
    if lists != [] {
      assert lists[0] in lists;
    }
    if i :| 0 <= i < |fileTypes| && fileTypes[i] != [] {
      assert Strs(fileTypes[i]) in lists;
    }
  }

  lemma FilesHold(db: Database, row: Row, fileTypes: seq<seq<string>>, i: int, ext: string)
    requires 0 <= i < |fileTypes| && ext in fileTypes[i] && ext in row.extensions
    ensures Holds(db, row, HasFile(Alternatives(fileTypes)))
  {
    AlternativesAre(fileTypes);
    StrsHave(fileTypes[i], ext);
    assert Strs(fileTypes[i]) in Alternatives(fileTypes);
  }

  lemma FilesMean(db: Database, row: Row, fileTypes: seq<seq<string>>)
    ensures Holds(db, row, HasFile(Alternatives(fileTypes))) <==>
              exists i, ext :: 0 <= i < |fileTypes| && ext in fileTypes[i] && ext in row.extensions
  {
    if Holds(db, row, HasFile(Alternatives(fileTypes))) {
      var vs, ext :| vs in Alternatives(fileTypes) && ext in row.extensions && Str(ext) in vs;
      AlternativesAre(fileTypes);
      var i :| 0 <= i < |fileTypes| && fileTypes[i] != [] && vs == Strs(fileTypes[i]);
      StrsHave(fileTypes[i], ext);
      assert ext in fileTypes[i];
    }
    if i, ext :| 0 <= i < |fileTypes| && ext in fileTypes[i] && ext in row.extensions {
      FilesHold(db, row, fileTypes, i, ext);
    }
  }

  lemma LanguagesMean(db: Database, row: Row, languages: seq<string>)
    ensures Holds(db, row, HasLanguage(Strs(languages))) <==> exists l :: l in languages && l in row.languages
  {
    forall l ensures Str(l) in Strs(languages) <==> l in languages {
      StrsHave(languages, l);
    }
  }

  lemma RefsMean(db: Database, row: Row, refs: seq<ContentRef>)
    ensures Holds(db, row, RefIn(AllRefValues(refs))) <==>
              exists ref :: ref in refs && row.contentType == Some(ref.kind)
                && row.contentSource == Some(ref.source) && row.contentId == Some(ref.id)
  {
    if ref :|
        ref in refs && row.contentType == Some(ref.kind)
        && row.contentSource == Some(ref.source) && row.contentId == Some(ref.id)
    {
      var i :| 0 <= i < |refs| && refs[i] == ref;
      assert AllRefValues(refs)[i] == RefValues(ref);
    }
    if Holds(db, row, RefIn(AllRefValues(refs))) {
      var vs := [Str(row.contentType.value), Str(row.contentSource.value), Str(row.contentId.value)];
      var i :| 0 <= i < |refs| && AllRefValues(refs)[i] == vs;
      assert RefValues(refs[i])[0] == vs[0] && RefValues(refs[i])[1] == vs[1] && RefValues(refs[i])[2] == vs[2];
      assert refs[i] in refs;
    }
  }

  lemma OneHolds(db: Database, row: Row, c: bool, cond: Cond)
    ensures HoldsAll(db, row, One(c, cond)) <==> (c ==> Holds(db, row, cond))
  {
    if c {
      assert One(c, cond)[0] == cond;
    }
  }

  lemma BothHold(db: Database, row: Row, a: seq<Cond>, b: seq<Cond>)
    ensures HoldsAll(db, row, a + b) <==> HoldsAll(db, row, a) && HoldsAll(db, row, b)
  {
    if HoldsAll(db, row, a + b) {
      assert forall i :: 0 <= i < |a| ==> (a + b)[i] == a[i];
      assert forall i :: 0 <= i < |b| ==> (a + b)[|a| + i] == b[i];
    }
  }

  lemma BeforeMeans(db: Database, row: Row, p: Search)
    ensures HoldsAll(db, row, CondsBefore(p) + CondsTypes(p)) <==>
              && (p.hasQuery ==> db.matches(row, p.tsquery))
              && (p.infoHashes != [] ==> row.infoHash in p.infoHashes)
              && (p.contentTypes != [] ==> row.contentType.Some? && row.contentType.value in p.contentTypes)
  {
    BothHold(db, row, CondsBefore(p), CondsTypes(p));
    BothHold(db, row, One(p.hasQuery, QueryMatches(Str(p.tsquery))),
             One(p.infoHashes != [], OneOf(InfoHash, Strs(p.infoHashes))));
    OneHolds(db, row, p.hasQuery, QueryMatches(Str(p.tsquery)));
    OneHolds(db, row, p.infoHashes != [], OneOf(InfoHash, Strs(p.infoHashes)));
    OneHolds(db, row, p.contentTypes != [], OneOf(ContentType, Strs(p.contentTypes)));
    StrsHave(p.infoHashes, row.infoHash);
    if row.contentType.Some? {
      StrsHave(p.contentTypes, row.contentType.value);
    }
  }

  lemma LastMeans(db: Database, row: Row, p: Search)
    ensures HoldsAll(db, row, CondsLast(p)) <==>
              && (p.contentRefs != [] ==>
                    exists ref :: ref in p.contentRefs && row.contentType == Some(ref.kind)
                      && row.contentSource == Some(ref.source) && row.contentId == Some(ref.id))
              && (p.barrier != "" ==> row.createdAt <= db.instant(p.barrier))
  {
    BothHold(db, row, One(p.contentRefs != [], RefIn(AllRefValues(p.contentRefs))),
             One(p.barrier != "", CreatedNoLater(Str(p.barrier))));
    OneHolds(db, row, p.contentRefs != [], RefIn(AllRefValues(p.contentRefs)));
    OneHolds(db, row, p.barrier != "", CreatedNoLater(Str(p.barrier)));
    RefsMean(db, row, p.contentRefs);
  }

  lemma MiddleMeans(db: Database, row: Row, p: Search)
    ensures HoldsAll(db, row, One(ExtTpls(p.fileTypes) != [], HasFile(Alternatives(p.fileTypes)))
                              + One(p.languages != [], HasLanguage(Strs(p.languages)))
                              + One(p.releaseYears != [], OneOf(ReleaseYear, Nums(p.releaseYears)))) <==>
              && ((exists i :: 0 <= i < |p.fileTypes| && p.fileTypes[i] != []) ==>
                    exists i, ext :: 0 <= i < |p.fileTypes| && ext in p.fileTypes[i] && ext in row.extensions)
              && (p.languages != [] ==> exists l :: l in p.languages && l in row.languages)
              && (p.releaseYears != [] ==> row.releaseYear.Some? && row.releaseYear.value in p.releaseYears)
  {
    var files := One(ExtTpls(p.fileTypes) != [], HasFile(Alternatives(p.fileTypes)));
    var languages := One(p.languages != [], HasLanguage(Strs(p.languages)));
    BothHold(db, row, files + languages, One(p.releaseYears != [], OneOf(ReleaseYear, Nums(p.releaseYears))));
    BothHold(db, row, files, languages);
    OneHolds(db, row, ExtTpls(p.fileTypes) != [], HasFile(Alternatives(p.fileTypes)));
    OneHolds(db, row, p.languages != [], HasLanguage(Strs(p.languages)));
    OneHolds(db, row, p.releaseYears != [], OneOf(ReleaseYear, Nums(p.releaseYears)));
    SomeExtensions(p.fileTypes);
    FilesMean(db, row, p.fileTypes);
    LanguagesMean(db, row, p.languages);
    if row.releaseYear.Some? {
      NumsHave(p.releaseYears, row.releaseYear.value);
    }
  }

  /** The conditions of the where clause hold of a row exactly when the search wants it. */
  lemma CondsMean(db: Database, row: Row, p: Search)
    ensures HoldsAll(db, row, CondsOf(p)) <==> Wanted(db, p, row)
  {
    BothHold(db, row, CondsBefore(p) + CondsTypes(p), CondsAfter(p));
    BothHold(db, row, One(ExtTpls(p.fileTypes) != [], HasFile(Alternatives(p.fileTypes)))
                      + One(p.languages != [], HasLanguage(Strs(p.languages)))
                      + One(p.releaseYears != [], OneOf(ReleaseYear, Nums(p.releaseYears))), CondsLast(p));
    BeforeMeans(db, row, p);
    MiddleMeans(db, row, p);
    LastMeans(db, row, p);
  }

  // ---------- the order is read back ----------

  predicate TieNext(rest: Template) { rest != [] && rest[0].Lit? && rest[0].s.TieBreak? }

  function KeyOf(p: Search, k: SortKey): Key
    requires !k.field.Unknown?
  {
    if !k.field.Relevance? then ColumnKey(SortColumn(k.field), k.desc)
    else if p.hasQuery then RankKey(Str(p.tsquery), k.desc)
    else ColumnKey(CreatedAt, k.desc)
  }

  function TiedKeys(p: Search, k: SortKey, last: bool): seq<Key> {
    if k.field.Unknown? then [] else [KeyOf(p, k)] + if last then [ColumnKey(InfoHash, k.desc)] else []
  }

  function KeysFor(p: Search, keys: seq<SortKey>): seq<Key> {
    if keys == [] then [] else TiedKeys(p, keys[0], |keys| == 1) + KeysFor(p, keys[1..])
  }

  /** Whatever follows it, except for a tie-break, the template reads as the keys. */
  ghost predicate KeyReads(t: Template, ks: seq<Key>) {
    forall rest: Template :: !TieNext(rest) ==> ReadKey(t + rest) == Some((ks, rest))
  }

  lemma BareKeyReads(p: Search, k: SortKey, rest: Template)
    requires !k.field.Unknown?
    ensures ReadKey(KeyTpl(p, k) + rest) == Some(Tied(KeyOf(p, k), rest))
  {
    var t := KeyTpl(p, k) + rest;
    if k.field.Relevance? && p.hasQuery {
      assert t[0] == Lit(RankOf) && t[1] == Val(Str(p.tsquery)) && t[2] == Lit(RankDir(k.desc)) && t[3..] == rest;
    } else {
      assert t[0].Lit? && t[1..] == rest;
    }
  }

  lemma TiedKeyReads(p: Search, k: SortKey, last: bool)
    requires !k.field.Unknown?
    ensures KeyReads(TiedKeyTpl(p, k, last), TiedKeys(p, k, last))
  {
    forall rest: Template | !TieNext(rest)
      ensures ReadKey(TiedKeyTpl(p, k, last) + rest) == Some((TiedKeys(p, k, last), rest))
    {
      var tie: Template := if last then [Lit(TieBreak(k.desc))] else [];
      Assoc(KeyTpl(p, k), tie, rest);
      BareKeyReads(p, k, tie + rest);
      if last {
        DropFront(tie, rest);
        assert (tie + rest)[0] == Lit(TieBreak(k.desc));
        assert TiedKeys(p, k, last) == [KeyOf(p, k), ColumnKey(InfoHash, k.desc)];
      } else {
        assert tie + rest == rest && KeyTpl(p, k) + [] == KeyTpl(p, k);
        assert TiedKeys(p, k, last) == [KeyOf(p, k)];
      }
    }
  }

  lemma MoreKeysRead(t: Template, ks: seq<Key>, more: Template, rest: Template)
    requires KeyReads(t, ks) && ReadKeys(more).Some?
    ensures ReadKeys(t + ([Lit(Comma)] + more)) == Some((ks + ReadKeys(more).value.0, ReadKeys(more).value.1))
  {
    var after: Template := [Lit(Comma)] + more;
    assert ReadKey(t + after) == Some((ks, after));
    assert after[1..] == more;
  }

  lemma LastKeyReads(t: Template, ks: seq<Key>, rest: Template)
    requires KeyReads(t, ks) && !TieNext(rest) && !Starts(rest, Comma)
    ensures ReadKeys(t + rest) == Some((ks, rest))
  {
    assert ReadKey(t + rest) == Some((ks, rest));
  }

  lemma {:induction false} KnownKeys(p: Search, keys: seq<SortKey>)
    ensures KeyTpls(p, keys) == [] <==> KeysFor(p, keys) == []
    ensures KeyTpls(p, keys) == [] <==> forall i :: 0 <= i < |keys| ==> keys[i].field.Unknown?
  {
    if keys != [] {
      KnownKeys(p, keys[1..]);
      if keys[0].field.Unknown? {
        assert forall i :: 0 < i < |keys| ==> keys[i] == keys[1..][i - 1];
      }
    }
  }

  lemma UnknownKey(p: Search, keys: seq<SortKey>)
    requires keys != [] && keys[0].field.Unknown?
    ensures KeyTpls(p, keys) == KeyTpls(p, keys[1..]) && KeysFor(p, keys) == KeysFor(p, keys[1..])
  {
  }

  lemma {:induction false} ReadKeysOf(p: Search, keys: seq<SortKey>, rest: Template)
    requires !TieNext(rest) && !Starts(rest, Comma) && KeyTpls(p, keys) != []
    ensures ReadKeys(Join(KeyTpls(p, keys), [Lit(Comma)]) + rest) == Some((KeysFor(p, keys), rest))
  {
    if keys[0].field.Unknown? {
      UnknownKey(p, keys);
      ReadKeysOf(p, keys[1..], rest);
    } else {
      var t, ks, ts := TiedKeyTpl(p, keys[0], |keys| == 1), TiedKeys(p, keys[0], |keys| == 1), KeyTpls(p, keys);
      TiedKeyReads(p, keys[0], |keys| == 1);
      assert t != [] && ts == [t] + KeyTpls(p, keys[1..]);
      if KeyTpls(p, keys[1..]) == [] {
        KnownKeys(p, keys[1..]);
        LastKeyReads(t, ks, rest);
        assert ts == [t] && KeysFor(p, keys) == ks;
      } else {
        ReadKeysOf(p, keys[1..], rest);
        assert ts[1..] == KeyTpls(p, keys[1..]);
        JoinSplit(ts, [Lit(Comma)], rest);
        MoreKeysRead(t, ks, Join(ts[1..], [Lit(Comma)]) + rest, rest);
      }
    }
  }

  function OrderKeys(p: Search): seq<Key> {
    if KeysFor(p, p.orderBy) == [] then TiedKeys(p, SortKey(Relevance, true), true) else KeysFor(p, p.orderBy)
  }

  lemma OrderReads(p: Search, rest: Template)
    requires !TieNext(rest) && !Starts(rest, Comma)
    ensures ReadOrder(OrderTpl(p) + rest) == Some((OrderKeys(p), rest))
  {
    KnownKeys(p, p.orderBy);
    if KeyTpls(p, p.orderBy) == [] {
      var best := SortKey(Relevance, true);
      assert DefaultOrder(p) == KeyTpl(p, best);
      TiedKeyReads(p, best, true);
      LastKeyReads(TiedKeyTpl(p, best, true), TiedKeys(p, best, true), rest);
      OrderPeeled(TiedKeyTpl(p, best, true), rest);
    } else {
      ReadKeysOf(p, p.orderBy, rest);
      OrderPeeled(Join(KeyTpls(p, p.orderBy), [Lit(Comma)]), rest);
    }
  }

  lemma OrderPeeled(t: Template, rest: Template)
    ensures Starts([Lit(OrderBy)] + t + rest, OrderBy) && ([Lit(OrderBy)] + t + rest)[1..] == t + rest
  {
  }

  /** A query made of filters, an order and a tail is read back as such. */
  lemma QueryReads(p: Search, tail: Template)
    requires !TieNext(tail) && !Starts(tail, Comma) && ReadTail(tail).Some?
    ensures ReadQuery(WhereTpl(Filters(p)) + OrderTpl(p) + tail) ==
              Some(Read(CondsOf(p), OrderKeys(p), ReadTail(tail).value.0, ReadTail(tail).value.1))
  {
    Assoc(WhereTpl(Filters(p)), OrderTpl(p), tail);
    assert (OrderTpl(p) + tail)[0] == Lit(OrderBy);
    WhereReads(p, OrderTpl(p) + tail);
    OrderReads(p, tail);
  }

  lemma CountReads(p: Search)
    ensures ReadQuery(WhereTpl(Filters(p))) == Some(Read(CondsOf(p), [], None, None))
  {
    WhereReads(p, []);
    assert WhereTpl(Filters(p)) + [] == WhereTpl(Filters(p));
  }

  // ---------- what the order says ----------

  lemma KeyMeans(db: Database, p: Search, k: SortKey, row: Row)
    requires !k.field.Unknown?
    ensures KeyValue(db, row, KeyOf(p, k)) == Measure(db, p, k.field, row) && KeyOf(p, k).desc == k.desc
  {
  }

  /** From sort key i on, the first key that tells the rows apart, or the info hash at the end. */
  ghost predicate BeforeFrom(db: Database, p: Search, i: nat, a: Row, b: Row)
    requires i <= |p.orderBy|
  {
    || (exists j :: i <= j < |p.orderBy| && SameIn(db, p, i, j, a, b) && Decides(db, p, j, a, b))
    || (i < |p.orderBy| && SameIn(db, p, i, |p.orderBy|, a, b) && !Last(p).field.Unknown?
        && Ahead(db.place(a.infoHash) as real, db.place(b.infoHash) as real, Last(p).desc))
  }

  ghost predicate SameIn(db: Database, p: Search, i: int, n: int, a: Row, b: Row)
    requires 0 <= i && n <= |p.orderBy|
  {
    forall j :: i <= j < n ==> Measure(db, p, p.orderBy[j].field, a) == Measure(db, p, p.orderBy[j].field, b)
  }

  lemma BeforeStep(db: Database, p: Search, i: nat, a: Row, b: Row)
    requires i + 1 < |p.orderBy|
    ensures BeforeFrom(db, p, i, a, b) <==>
              Decides(db, p, i, a, b)
              || (Measure(db, p, p.orderBy[i].field, a) == Measure(db, p, p.orderBy[i].field, b)
                  && BeforeFrom(db, p, i + 1, a, b))
  {
    forall j | i < j <= |p.orderBy|
      ensures SameIn(db, p, i, j, a, b) <==>
                Measure(db, p, p.orderBy[i].field, a) == Measure(db, p, p.orderBy[i].field, b)
                && SameIn(db, p, i + 1, j, a, b)
    {
    }
    assert SameIn(db, p, i, i, a, b);
  }

  lemma LastStep(db: Database, p: Search, a: Row, b: Row)
    requires p.orderBy != []
    ensures var i := |p.orderBy| - 1;
            BeforeFrom(db, p, i, a, b) <==>
              Decides(db, p, i, a, b)
              || (Measure(db, p, Last(p).field, a) == Measure(db, p, Last(p).field, b) && !Last(p).field.Unknown?
                  && Ahead(db.place(a.infoHash) as real, db.place(b.infoHash) as real, Last(p).desc))
  {
    assert SameIn(db, p, |p.orderBy| - 1, |p.orderBy| - 1, a, b);
  }

  lemma {:induction false} PrecedesFrom(db: Database, p: Search, i: nat, a: Row, b: Row)
    requires i < |p.orderBy|
    ensures Precedes(db, KeysFor(p, p.orderBy[i..]), a, b) <==> BeforeFrom(db, p, i, a, b)
    decreases |p.orderBy| - i
  {
    var k, keys := p.orderBy[i], p.orderBy[i..];
    assert keys[0] == k && keys[1..] == p.orderBy[i + 1..];
    if !k.field.Unknown? {
      KeyMeans(db, p, k, a);
      KeyMeans(db, p, k, b);
    }
    if i + 1 < |p.orderBy| {
      PrecedesFrom(db, p, i + 1, a, b);
      BeforeStep(db, p, i, a, b);
      if k.field.Unknown? {
        UnknownKey(p, keys);
      } else {
        var all := [KeyOf(p, k)] + KeysFor(p, keys[1..]);
        assert KeysFor(p, keys) == all && all[1..] == KeysFor(p, keys[1..]);
      }
    } else {
      LastStep(db, p, a, b);
      assert KeysFor(p, keys[1..]) == [] && KeysFor(p, keys) == TiedKeys(p, k, true);
      if !k.field.Unknown? {
        TiedPrecedes(db, p, k, a, b);
      }
    }
  }

  lemma TiedPrecedes(db: Database, p: Search, k: SortKey, a: Row, b: Row)
    requires !k.field.Unknown?
    ensures var x, y := Measure(db, p, k.field, a), Measure(db, p, k.field, b);
            Precedes(db, TiedKeys(p, k, true), a, b) <==>
              Ahead(x, y, k.desc)
              || (x == y && Ahead(db.place(a.infoHash) as real, db.place(b.infoHash) as real, k.desc))
  {
    var keys := TiedKeys(p, k, true);
    KeyMeans(db, p, k, a);
    KeyMeans(db, p, k, b);
    var tie := ColumnKey(InfoHash, k.desc);
    assert keys[1..] == [tie] && [tie][1..] == [];
    assert !Precedes(db, [], a, b);
    assert Precedes(db, [tie], a, b) <==> Ahead(KeyValue(db, a, tie), KeyValue(db, b, tie), k.desc);
  }

  /** The keys of the order clause order two rows exactly as the search wants it. */
  lemma OrderMeans(db: Database, p: Search, a: Row, b: Row)
    ensures Precedes(db, OrderKeys(p), a, b) <==> WantedBefore(db, p, a, b)
  {
    KnownKeys(p, p.orderBy);
    if NoneKnown(p) {
      TiedPrecedes(db, p, SortKey(Relevance, true), a, b);
    } else {
      assert p.orderBy[0..] == p.orderBy;
      PrecedesFrom(db, p, 0, a, b);
      assert forall n :: 0 <= n <= |p.orderBy| ==> (SameIn(db, p, 0, n, a, b) <==> SameUpTo(db, p, n, a, b));
    }
  }

  // ---------- what a query asks for ----------

  /** Executed with its arguments, the query finds exactly the rows a search wants; if it is to be
      `ordered` they come as wanted; it skips and limits them as given. */
  ghost predicate Asks(c: Clause, args: seq<Value>, p: Search, ordered: bool, limit: Option<int>, skip: Option<int>) {
    && InRange(c, args)
    && var r := ReadQuery(Instantiate(c, args));
       && r.Some?
       && FindsWanted(r.value, p) && (ordered ==> OrdersAsWanted(r.value, p))
       && r.value.limit == (if limit.Some? then Some(Num(limit.value)) else None)
       && r.value.skip == (if skip.Some? then Some(Num(skip.value)) else None)
  }

  lemma PageAsks(c: Clause, args: seq<Value>, p: Search)
    requires Means(c, args, PageTpl(p))
    ensures Asks(c, args, p, true, Some(PageLimit(p)), Some(ClampInt32(p.offset)))
  {
    QueryReads(p, PageTail(PageLimit(p), ClampInt32(p.offset)));
    AllMean(p);
  }

  lemma HasNextAsks(c: Clause, args: seq<Value>, p: Search, skip: int)
    requires Means(c, args, HasNextTpl(p, skip))
    ensures Asks(c, args, p, true, None, Some(skip))
  {
    QueryReads(p, [Lit(Offset), Val(Num(skip))]);
    AllMean(p);
  }

  lemma CountAsks(c: Clause, args: seq<Value>, p: Search)
    requires Means(c, args, WhereTpl(Filters(p)))
    ensures Asks(c, args, p, false, None, None)
  {
    CountReads(p);
    AllMean(p);
  }

  lemma AllMean(p: Search)
    ensures forall db: Database, row: Row :: HoldsAll(db, row, CondsOf(p)) <==> Wanted(db, p, row)
    ensures forall db: Database, a: Row, b: Row :: Precedes(db, OrderKeys(p), a, b) <==> WantedBefore(db, p, a, b)
  {
    forall db: Database, row: Row ensures HoldsAll(db, row, CondsOf(p)) <==> Wanted(db, p, row) {
      CondsMean(db, row, p);
    }
    forall db: Database, a: Row, b: Row ensures Precedes(db, OrderKeys(p), a, b) <==> WantedBefore(db, p, a, b) {
      OrderMeans(db, p, a, b);
    }
  }
}

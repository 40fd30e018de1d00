/**
 What a torrent search asks for, and the templates of its clauses: SQL with the values in place.
 */
module SearchFilters {
  import opened Strings
  import opened SearchQuery

  datatype ContentRef = ContentRef(kind: string, source: string, id: string)

  /** The fields to sort by; Unknown is any other name. */
  datatype SortField =
    | Relevance | ByCreated | ByUpdated | BySize | ByFiles | BySeeders | ByLeechers | ByName | ByInfoHash | Unknown

  datatype SortKey = SortKey(field: SortField, desc: bool)

  /** The search parameters. A file type stands for its list of extensions; `tsquery` is the
      compiled query string, present when the query string is not empty. */
  datatype Search = Search(
    hasQuery: bool,
    tsquery: string,
    infoHashes: seq<string>,
    contentTypes: seq<string>,
    fileTypes: seq<seq<string>>,
    languages: seq<string>,
    releaseYears: seq<int>,
    contentRefs: seq<ContentRef>,
    barrier: string,
    orderBy: seq<SortKey>,
    limit: nat,
    offset: nat)

  // ---------- what each clause means ----------

  function Strs(items: seq<string>): seq<Value> { seq(|items|, i requires 0 <= i < |items| => Str(items[i])) }
  function Nums(items: seq<int>): seq<Value> { seq(|items|, i requires 0 <= i < |items| => Num(items[i])) }

  /** Each value as a template of its own. */
  function Singles(vs: seq<Value>): (ts: seq<Template>)
    ensures |ts| == |vs| && forall i :: 0 <= i < |vs| ==> ts[i] == [Val(vs[i])]
  {
    if vs == [] then [] else [[Val(vs[0])]] + Singles(vs[1..])
  }

  /** The placeholders from, from + 1, ... */
  function ParamsFrom(from: int, k: nat): (cs: seq<Clause>)
    ensures |cs| == k && forall i :: 0 <= i < k ==> cs[i] == [Param(from + i)]
  {
    seq(k, i requires 0 <= i < k => [Param(from + i)])
  }

  /** The values, separated by commas. */
  function Listed(vs: seq<Value>): Template { Join(Singles(vs), [Lit(Comma)]) }

  function InTpl(col: Column, vs: seq<Value>): Template { [Lit(In(col))] + Listed(vs) + [Lit(Close)] }

  function QueryTpl(tsquery: string): Template { [Lit(TsvMatches), Val(Str(tsquery)), Lit(AsTsquery)] }

  function ExtTpl(exts: seq<string>): Template { [Lit(ExistsFile)] + Listed(Strs(exts)) + [Lit(CloseExists)] }

  /** A file type without extensions contributes nothing. */
  function Alternative(exts: seq<string>): seq<Template> { if exts == [] then [] else [ExtTpl(exts)] }

  /** One alternative for each file type that has extensions. */
  function ExtTpls(fileTypes: seq<seq<string>>): seq<Template> {
    if fileTypes == [] then [] else Alternative(fileTypes[0]) + ExtTpls(fileTypes[1..])
  }

  function FileTpl(fileTypes: seq<seq<string>>): Template {
    [Lit(Open)] + Join(ExtTpls(fileTypes), [Lit(Or)]) + [Lit(Close)]
  }

  function LanguageTpl(languages: seq<string>): Template {
    [Lit(AnyLanguage)] + Listed(Strs(languages)) + [Lit(CloseBracket)]
  }

  function RefTpl(r: ContentRef): Template {
    [Lit(Open), Val(Str(r.kind)), Lit(Comma), Val(Str(r.source)), Lit(Comma), Val(Str(r.id)), Lit(Close)]
  }

  function RefTpls(refs: seq<ContentRef>): seq<Template> {
    if refs == [] then [] else [RefTpl(refs[0])] + RefTpls(refs[1..])
  }

  function RefsTpl(refs: seq<ContentRef>): Template {
    [Lit(RefsIn)] + Join(RefTpls(refs), [Lit(Comma)]) + [Lit(Close)]
  }

  function BarrierTpl(barrier: string): Template { [Lit(CreatedBy), Val(Str(barrier)), Lit(AsTimestamp)] }

  function When(c: bool, t: Template): seq<Template> { if c then [t] else [] }

  /** The filters before the content type filter, and those after it. */
  function BeforeTypes(p: Search): seq<Template> {
    When(p.hasQuery, QueryTpl(p.tsquery)) + When(p.infoHashes != [], InTpl(InfoHash, Strs(p.infoHashes)))
  }

  function TypesTpl(p: Search): Template { InTpl(ContentType, Strs(p.contentTypes)) }

  function AfterTypes(p: Search): seq<Template> {
    When(ExtTpls(p.fileTypes) != [], FileTpl(p.fileTypes))
    + When(p.languages != [], LanguageTpl(p.languages))
    + When(p.releaseYears != [], InTpl(ReleaseYear, Nums(p.releaseYears)))
    + LastFilters(p)
  }

  function LastFilters(p: Search): seq<Template> {
    When(p.contentRefs != [], RefsTpl(p.contentRefs)) + When(p.barrier != "", BarrierTpl(p.barrier))
  }

  /** All the filters a search asks for, each with its values in place. */
  function Filters(p: Search): seq<Template> {
    BeforeTypes(p) + When(p.contentTypes != [], TypesTpl(p)) + AfterTypes(p)
  }

  // ---------- order, page and has-next ----------

  const MAX_INT32: int := 0x7fff_ffff

  function ClampInt32(v: nat): int { if v > MAX_INT32 then MAX_INT32 else v }

  /** Addition of 32-bit integers, which wraps around. */
  function AddInt32(a: int, b: int): int {
    var sum := a + b;
    if sum > MAX_INT32 then sum - 0x1_0000_0000 else sum
  }

  function PageLimit(p: Search): int {
    var limit := ClampInt32(p.limit);
    if limit <= 0 then 10 else limit
  }

  function WhereTpl(ts: seq<Template>): Template {
    if ts == [] then [] else [Lit(Where)] + Join(ts, [Lit(And)])
  }

  function DefaultOrder(p: Search): Template {
    if p.hasQuery then [Lit(RankOf), Val(Str(p.tsquery)), Lit(RankDir(true))]
    else [Lit(By(CreatedAt, true))]
  }

  /** The expression of a field other than the relevance. */
  function SortColumn(f: SortField): Column
    requires !f.Relevance? && !f.Unknown?
  {
    match f
    case ByCreated => CreatedAt
    case ByUpdated => UpdatedAt
    case BySize => Size
    case ByFiles => FilesCount
    case BySeeders => Seeders
    case ByLeechers => Leechers
    case ByName => Name
    case ByInfoHash => InfoHash
  }

  /** One sort key; a field that is not known contributes nothing. */
  function KeyTpl(p: Search, k: SortKey): Template {
    match k.field
    case Relevance =>
      if p.hasQuery then [Lit(RankOf), Val(Str(p.tsquery)), Lit(RankDir(k.desc))]
      else [Lit(By(CreatedAt, k.desc))]
    case Unknown => []
    case field => [Lit(By(SortColumn(field), k.desc))]
  }

  /** The last of the sort keys also names the info hash, to break ties. */
  function TiedKeyTpl(p: Search, k: SortKey, last: bool): Template {
    if KeyTpl(p, k) == [] then [] else KeyTpl(p, k) + if last then [Lit(TieBreak(k.desc))] else []
  }

  function KeyTpls(p: Search, keys: seq<SortKey>): seq<Template> {
    if keys == [] then []
    else
      Kept(TiedKeyTpl(p, keys[0], |keys| == 1)) + KeyTpls(p, keys[1..])
  }

  /** An empty sort key is left out. */
  function Kept(t: Template): seq<Template> { if t == [] then [] else [t] }

  function OrderTpl(p: Search): Template {
    [Lit(OrderBy)] +
      if KeyTpls(p, p.orderBy) == [] then DefaultOrder(p) + [Lit(TieBreak(true))]
      else Join(KeyTpls(p, p.orderBy), [Lit(Comma)])
  }

  function PageTail(limit: int, offset: int): Template {
    [Lit(Limit), Val(Num(limit)), Lit(Offset), Val(Num(offset))]
  }

  function PageTpl(p: Search): Template {
    WhereTpl(Filters(p)) + OrderTpl(p) + PageTail(PageLimit(p), ClampInt32(p.offset))
  }

  function HasNextTpl(p: Search, skip: int): Template {
    WhereTpl(Filters(p)) + OrderTpl(p) + [Lit(Offset), Val(Num(skip))]
  }
}

/**
 External recipes and the versioned trailer that carries them at the end of a
 serialized catalog.
 */
module Recipes {
  import opened Bytes
  import opened Utf8
  import opened Wire

  datatype Auth =
    | NoAuth
    | BearerEnv(env: string)
    | HeaderEnv(header: string, env: string)
    | ObjStoreEnv(provider: byte, aEnv: string, bEnv: string, account: Option<string>)

  datatype Pagination =
    | NextUrlJson(path: string)
    | NextLink
    | CursorJson(path: string, param: string)

  datatype Recipe = Recipe(
    typeId: u32,
    url: string,
    format: byte,
    keyFieldId: u16,
    auth: Auth,
    mapping: seq<(u16, string)>,
    rowsPath: Option<string>,
    pagination: Option<Pagination>,
    region: Option<string>,
    endpoint: Option<string>)

  // ---- parts --------------------------------------------------------------------------------

  function PutAuth(a: Auth): seq<byte> {
    match a
    case NoAuth => [0]
    case BearerEnv(env) => [1] + PutStr32(env)
    case HeaderEnv(header, env) => [2] + (PutStr32(header) + PutStr32(env))
    case ObjStoreEnv(provider, aEnv, bEnv, account) =>
      [3] + ([provider] + (PutStr32(aEnv) + (PutStr32(bEnv) + PutOption(account))))
  }

  function AuthAt(b: seq<byte>, p: nat): Parsed<Auth> {
    var (tag, p) :- ByteAt(b, p);
    if tag == 0 then Some((NoAuth, p))
    else if tag == 1 then
      var (env, p) :- Str32At(b, p);
      Some((BearerEnv(env), p))
    else if tag == 2 then
      var (header, p) :- Str32At(b, p);
      var (env, p) :- Str32At(b, p);
      Some((HeaderEnv(header, env), p))
    else if tag == 3 then
      var (provider, p) :- ByteAt(b, p);
      var (aEnv, p) :- Str32At(b, p);
      var (bEnv, p) :- Str32At(b, p);
      var (account, p) :- OptionAt(b, p);
      Some((ObjStoreEnv(provider, aEnv, bEnv, account), p))
    else None
  }

  predicate AuthFits(a: Auth) {
    match a
    case NoAuth => true
    case BearerEnv(env) => Short32(env)
    case HeaderEnv(header, env) => Short32(header) && Short32(env)
    case ObjStoreEnv(_, aEnv, bEnv, account) => Short32(aEnv) && Short32(bEnv) && ShortOption(account)
  }

  lemma ReadAuth(b: seq<byte>, p: nat, a: Auth)
    requires AuthFits(a) && At(b, p, PutAuth(a))
    ensures AuthAt(b, p) == Some((a, p + |PutAuth(a)|))
  {
    hide At, ByteAt, Str32At, PutStr32, OptionAt, PutOption, Short32, ShortOption;
    match a
    case NoAuth =>
      ReadByte(b, p, 0);
    case BearerEnv(env) =>
      AtSplit(b, p, [1], PutStr32(env));
      ReadByte(b, p, 1);
      ReadStr32(b, p + 1, env);
    case HeaderEnv(header, env) =>
      var h := PutStr32(header);
      AtSplit(b, p, [2], h + PutStr32(env));
      AtSplit(b, p + 1, h, PutStr32(env));
      ReadByte(b, p, 2);
      ReadStr32(b, p + 1, header);
      ReadStr32(b, p + 1 + |h|, env);
    case ObjStoreEnv(provider, aEnv, bEnv, account) =>
      ReadObjStore(b, p, a);
  }

  lemma ReadObjStore(b: seq<byte>, p: nat, a: Auth)
    requires AuthFits(a) && At(b, p, PutAuth(a)) && a.ObjStoreEnv?
    ensures AuthAt(b, p) == Some((a, p + |PutAuth(a)|))
  {
    hide At, ByteAt, Str32At, PutStr32, OptionAt, PutOption, Short32, ShortOption;
    var ObjStoreEnv(provider, aEnv, bEnv, account) := a;
    var x, y := PutStr32(aEnv), PutStr32(bEnv);
    var z := PutOption(account);
    AtSplit(b, p, [3], [provider] + (x + (y + z)));
    AtSplit(b, p + 1, [provider], x + (y + z));
    AtSplit(b, p + 2, x, y + z);
    AtSplit(b, p + 2 + |x|, y, z);
    ReadByte(b, p, 3);
    ReadByte(b, p + 1, provider);
    ReadStr32(b, p + 2, aEnv);
    ReadStr32(b, p + 2 + |x|, bEnv);
    ReadOption(b, p + 2 + |x| + |y|, account);
  }

  function PutMapping(m: (u16, string)): seq<byte> {
    ToLE(m.0, 2) + PutStr32(m.1)
  }

  function MappingAt(b: seq<byte>, p: nat): Parsed<(u16, string)> {
    var (fid, p) :- U16At(b, p);
    var (src, p) :- Str32At(b, p);
    Some(((fid, src), p))
  }

  lemma MappingLaw(m: (u16, string))
    requires Short32(m.1)
    ensures Inverts(PutMapping(m), MappingAt, m)
  {
    hide At, ToLE, U16At, Str32At, PutStr32, Short32;
    forall b: seq<byte>, p: nat | At(b, p, PutMapping(m))
      ensures MappingAt(b, p) == Some((m, p + |PutMapping(m)|))
    {
      AtSplit(b, p, ToLE(m.0, 2), PutStr32(m.1));
      ReadU16(b, p, m.0);
      ReadStr32(b, p + 2, m.1);
    }
  }

  function PutPagination(g: Option<Pagination>): seq<byte> {
    match g
    case None => [0]
    case Some(NextUrlJson(path)) => [1] + PutStr32(path)
    case Some(NextLink) => [2]
    case Some(CursorJson(path, param)) => [3] + (PutStr32(path) + PutStr32(param))
  }

  function PaginationAt(b: seq<byte>, p: nat): Parsed<Option<Pagination>> {
    var (tag, p) :- ByteAt(b, p);
    if tag == 0 then Some((None, p))
    else if tag == 1 then
      var (path, p) :- Str32At(b, p);
      Some((Some(NextUrlJson(path)), p))
    else if tag == 2 then Some((Some(NextLink), p))
    else if tag == 3 then
      var (path, p) :- Str32At(b, p);
      var (param, p) :- Str32At(b, p);
      Some((Some(CursorJson(path, param)), p))
    else None
  }

  predicate PaginationFits(g: Option<Pagination>) {
    match g
    case None => true
    case Some(NextUrlJson(path)) => Short32(path)
    case Some(NextLink) => true
    case Some(CursorJson(path, param)) => Short32(path) && Short32(param)
  }

  lemma ReadPagination(b: seq<byte>, p: nat, g: Option<Pagination>)
    requires PaginationFits(g) && At(b, p, PutPagination(g))
    ensures PaginationAt(b, p) == Some((g, p + |PutPagination(g)|))
  {
    hide At, ByteAt, Str32At, PutStr32, Short32;
    match g
    case None =>
      ReadByte(b, p, 0);
    case Some(NextUrlJson(path)) =>
      AtSplit(b, p, [1], PutStr32(path));
      ReadByte(b, p, 1);
      ReadStr32(b, p + 1, path);
    case Some(NextLink) =>
      ReadByte(b, p, 2);
    case Some(CursorJson(path, param)) =>
      var x := PutStr32(path);
      AtSplit(b, p, [3], x + PutStr32(param));
      AtSplit(b, p + 1, x, PutStr32(param));
      ReadByte(b, p, 3);
      ReadStr32(b, p + 1, path);
      ReadStr32(b, p + 1 + |x|, param);
  }

  // ---- recipes by version ----------------------------------------------------------------------

  /** The parts every version has. */
  function PutCore(r: Recipe): seq<byte> {
    ToLE(r.typeId, 4) +
    ([r.format] +
     (ToLE(r.keyFieldId, 2) +
      (PutStr32(r.url) +
       (PutAuth(r.auth) +
        Counted32(r.mapping, PutMapping)))))
  }

  /** The parts added by version 2. */
  function PutPaging(r: Recipe): seq<byte> {
    PutOption(r.rowsPath) + PutPagination(r.pagination)
  }

  /** The parts added by version 3. */
  function PutStore(r: Recipe): seq<byte> {
    PutOption(r.region) + PutOption(r.endpoint)
  }

  function PutRecipe(r: Recipe, ver: nat): seq<byte> {
    PutCore(r) + ((if ver >= 2 then PutPaging(r) else []) + (if ver >= 3 then PutStore(r) else []))
  }

  function CoreAt(b: seq<byte>, p: nat): Parsed<Recipe> {
    var (typeId, p) :- U32At(b, p);
    var (format, p) :- ByteAt(b, p);
    var (keyFieldId, p) :- U16At(b, p);
    var (url, p) :- Str32At(b, p);
    var (auth, p) :- AuthAt(b, p);
    var (mapping, p) :- Counted32At(b, p, MappingAt);
    Some((Recipe(typeId, url, format, keyFieldId, auth, mapping, None, None, None, None), p))
  }

  function RecipeAt(b: seq<byte>, p: nat, ver: nat): Parsed<Recipe> {
    var (r, p) :- CoreAt(b, p);
    var (r, p) :- if ver >= 2 then PagingAt(b, p, r) else Some((r, p));
    if ver >= 3 then StoreAt(b, p, r) else Some((r, p))
  }

  function PagingAt(b: seq<byte>, p: nat, r: Recipe): Parsed<Recipe> {
    var (rowsPath, p) :- OptionAt(b, p);
    var (pagination, p) :- PaginationAt(b, p);
    Some((r.(rowsPath := rowsPath, pagination := pagination), p))
  }

  function StoreAt(b: seq<byte>, p: nat, r: Recipe): Parsed<Recipe> {
    var (region, p) :- OptionAt(b, p);
    var (endpoint, p) :- OptionAt(b, p);
    Some((r.(region := region, endpoint := endpoint), p))
  }

  /** What a version of the trailer keeps of a recipe. */
  function Visible(r: Recipe, ver: nat): Recipe {
    var r := if ver >= 2 then r else r.(rowsPath := None, pagination := None);
    if ver >= 3 then r else r.(region := None, endpoint := None)
  }

  predicate CoreFits(r: Recipe) {
    && Short32(r.url) && AuthFits(r.auth)
    && |r.mapping| < 0x1_0000_0000 && forall i | 0 <= i < |r.mapping| :: Short32(r.mapping[i].1)
  }

  predicate RecipeFits(r: Recipe) {
    && CoreFits(r)
    && ShortOption(r.rowsPath) && PaginationFits(r.pagination)
    && ShortOption(r.region) && ShortOption(r.endpoint)
  }

  lemma ReadCore(b: seq<byte>, p: nat, r: Recipe)
    requires CoreFits(r) && At(b, p, PutCore(r))
    ensures CoreAt(b, p) == Some((Visible(r, 1), p + |PutCore(r)|))
  {
    hide At, ToLE, U32At, U16At, ByteAt, Str32At, PutStr32, AuthAt, PutAuth, Counted32, Counted32At, Short32, AuthFits;
    var u, a, m := PutStr32(r.url), PutAuth(r.auth), Counted32(r.mapping, PutMapping);
    AtSplit(b, p, ToLE(r.typeId, 4), [r.format] + (ToLE(r.keyFieldId, 2) + (u + (a + m))));
    AtSplit(b, p + 4, [r.format], ToLE(r.keyFieldId, 2) + (u + (a + m)));
    AtSplit(b, p + 5, ToLE(r.keyFieldId, 2), u + (a + m));
    AtSplit(b, p + 7, u, a + m);
    AtSplit(b, p + 7 + |u|, a, m);
    ReadU32(b, p, r.typeId);
    ReadByte(b, p + 4, r.format);
    ReadU16(b, p + 5, r.keyFieldId);
    ReadStr32(b, p + 7, r.url);
    ReadAuth(b, p + 7 + |u|, r.auth);
    forall i | 0 <= i < |r.mapping|
      ensures Inverts(PutMapping(r.mapping[i]), MappingAt, r.mapping[i])
    {
      MappingLaw(r.mapping[i]);
    }
    ReadCounted32(b, p + 7 + |u| + |a|, r.mapping, PutMapping, MappingAt);
  }

  lemma ReadPaging(b: seq<byte>, p: nat, r: Recipe, had: Recipe)
    requires RecipeFits(r) && At(b, p, PutPaging(r))
    ensures PagingAt(b, p, had) == Some((had.(rowsPath := r.rowsPath, pagination := r.pagination), p + |PutPaging(r)|))
  {
    hide At, OptionAt, PutOption, PaginationAt, PutPagination, CoreFits, ShortOption, PaginationFits;
    AtSplit(b, p, PutOption(r.rowsPath), PutPagination(r.pagination));
    ReadOption(b, p, r.rowsPath);
    ReadPagination(b, p + |PutOption(r.rowsPath)|, r.pagination);
  }

  lemma ReadStore(b: seq<byte>, p: nat, r: Recipe, had: Recipe)
    requires RecipeFits(r) && At(b, p, PutStore(r))
    ensures StoreAt(b, p, had) == Some((had.(region := r.region, endpoint := r.endpoint), p + |PutStore(r)|))
  {
    hide At, OptionAt, PutOption, CoreFits, ShortOption, PaginationFits;
    AtSplit(b, p, PutOption(r.region), PutOption(r.endpoint));
    ReadOption(b, p, r.region);
    ReadOption(b, p + |PutOption(r.region)|, r.endpoint);
  }

  lemma ReadRecipe(b: seq<byte>, p: nat, r: Recipe, ver: nat)
    requires RecipeFits(r) && At(b, p, PutRecipe(r, ver))
    ensures RecipeAt(b, p, ver) == Some((Visible(r, ver), p + |PutRecipe(r, ver)|))
  {
    hide At, CoreAt, PutCore, PagingAt, PutPaging, StoreAt, PutStore, CoreFits, ShortOption, PaginationFits;
    var c := PutCore(r);
    var g := if ver >= 2 then PutPaging(r) else [];
    var s := if ver >= 3 then PutStore(r) else [];
    AtSplit(b, p, c, g + s);
    AtSplit(b, p + |c|, g, s);
    ReadCore(b, p, r);
    if ver >= 2 { ReadPaging(b, p + |c|, r, Visible(r, 1)); }
    if ver >= 3 { ReadStore(b, p + |c| + |g|, r, Visible(r, 2)); }
  }

  // ---- the trailer ---------------------------------------------------------------------------------

  function Writer(ver: nat): Recipe -> seq<byte> {
    (r: Recipe) => PutRecipe(r, ver)
  }

  function Reader(ver: nat): (seq<byte>, nat) -> Parsed<Recipe> {
    (b: seq<byte>, p: nat) => RecipeAt(b, p, ver)
  }

  lemma RecipeLaw(r: Recipe, ver: nat)
    requires RecipeFits(r) && Visible(r, ver) == r
    ensures Inverts(Writer(ver)(r), Reader(ver), r)
  {
    hide At, PutRecipe, RecipeAt, RecipeFits;
    forall b: seq<byte>, p: nat | At(b, p, PutRecipe(r, ver))
      ensures RecipeAt(b, p, ver) == Some((r, p + |PutRecipe(r, ver)|))
    {
      ReadRecipe(b, p, r, ver);
    }
  }

  predicate NeedsStore(r: Recipe) {
    r.auth.ObjStoreEnv? || r.region.Some? || r.endpoint.Some?
  }

  predicate NeedsV3(rs: seq<Recipe>) {
    exists i :: 0 <= i < |rs| && NeedsStore(rs[i])
  }

  function VersionOf(rs: seq<Recipe>): byte {
    if NeedsV3(rs) then 3 else 2
  }

  /** Nothing for no recipes; else a zero sentinel, the version and the recipes. */
  function PutTrailer(rs: seq<Recipe>): seq<byte> {
    if rs == [] then []
    else ToLE(0, 4) + ([VersionOf(rs)] + Counted32(rs, Writer(VersionOf(rs))))
  }

  /** The trailer of the first version: no sentinel. */
  function PutTrailerV1(rs: seq<Recipe>): seq<byte> {
    Counted32(rs, Writer(1))
  }

  function ParseTrailer(b: seq<byte>, p: nat): Option<seq<Recipe>> {
    if p >= |b| then Some([])
    else
      var (first, p) :- U32At(b, p);
      if first == 0 then
        var (ver, p) :- ByteAt(b, p);
        if ver != 2 && ver != 3 then None
        else
          var (rs, _) :- Counted32At(b, p, Reader(ver));
          Some(rs)
      else
        var (rs, _) :- ListAt(b, p, first, Reader(1));
        Some(rs)
  }

  function TrailerOf(b: seq<byte>, p: nat): seq<Recipe> {
    match ParseTrailer(b, p)
    case Some(rs) => rs
    case None => []
  }

  predicate RecipesFit(rs: seq<Recipe>) {
    |rs| < 0x1_0000_0000 && forall i | 0 <= i < |rs| :: RecipeFits(rs[i])
  }

  lemma RecipesLaw(rs: seq<Recipe>, ver: nat)
    requires RecipesFit(rs) && forall i | 0 <= i < |rs| :: Visible(rs[i], ver) == rs[i]
    ensures forall i | 0 <= i < |rs| :: Inverts(Writer(ver)(rs[i]), Reader(ver), rs[i])
  {
    hide Writer, Reader, Visible, RecipeFits;
    forall i | 0 <= i < |rs|
      ensures Inverts(Writer(ver)(rs[i]), Reader(ver), rs[i])
    {
      RecipeLaw(rs[i], ver);
    }
  }

  lemma VersionSuffices(rs: seq<Recipe>, i: nat)
    requires i < |rs|
    ensures Visible(rs[i], VersionOf(rs)) == rs[i]
  {
    if !NeedsV3(rs) { assert !NeedsStore(rs[i]); }
  }

  /** A written trailer at the end of a blob reads back, in whichever version it was written. */
  lemma TrailerRoundTrip(b: seq<byte>, p: nat, rs: seq<Recipe>)
    requires RecipesFit(rs) && At(b, p, PutTrailer(rs)) && p + |PutTrailer(rs)| == |b|
    ensures TrailerOf(b, p) == rs
  {
    hide ToLE, U32At, Counted32, Counted32At, Writer, Reader, RecipeFits, NeedsV3;
    if rs != [] {
      var ver := VersionOf(rs);
      var body := Counted32(rs, Writer(ver));
      AtSplit(b, p, ToLE(0, 4), [ver] + body);
      AtSplit(b, p + 4, [ver], body);
      ReadU32(b, p, 0);
      ReadByte(b, p + 4, ver);
      forall i | 0 <= i < |rs|
        ensures Visible(rs[i], ver) == rs[i]
      {
        VersionSuffices(rs, i);
      }
      RecipesLaw(rs, ver);
      ReadCounted32(b, p + 5, rs, Writer(ver), Reader(ver));
    }
  }

  /** A trailer of the first version with at least one recipe reads back, with the newer parts absent. */
  lemma V1RoundTrip(b: seq<byte>, p: nat, rs: seq<Recipe>)
    requires rs != [] && RecipesFit(rs) && (forall i | 0 <= i < |rs| :: Visible(rs[i], 1) == rs[i])
    requires At(b, p, PutTrailerV1(rs)) && p + |PutTrailerV1(rs)| == |b|
    ensures TrailerOf(b, p) == rs
  {
    hide ToLE, U32At, All, ListAt, Writer, Reader, RecipeFits, Visible;
    AtSplit(b, p, ToLE(|rs|, 4), All(rs, Writer(1)));
    ReadU32(b, p, |rs|);
    RecipesLaw(rs, 1);
    ReadList(b, p + 4, rs, Writer(1), Reader(1));
  }

  /**
   The sentinel tells the versions apart: newer trailers start with it, a first-version one
   never does. Version 2 is written exactly when no recipe needs an object-store field.
   */
  lemma SentinelIsUnambiguous(rs: seq<Recipe>)
    requires rs != [] && |rs| < 0x1_0000_0000
    ensures U32At(PutTrailer(rs), 0) == Some((0, 4))
    ensures U32At(PutTrailerV1(rs), 0) == Some((|rs|, 4)) && |rs| != 0
    ensures ByteAt(PutTrailer(rs), 4) == Some((2, 5)) <==> forall i | 0 <= i < |rs| :: !NeedsStore(rs[i])
  {
    hide ToLE, U32At, Counted32, All, Writer, NeedsStore;
    var t := PutTrailer(rs);
    var body := Counted32(rs, Writer(VersionOf(rs)));
    assert t[0..|t|] == t;
    AtSplit(t, 0, ToLE(0, 4), [VersionOf(rs)] + body);
    AtSplit(t, 4, [VersionOf(rs)], body);
    ReadU32(t, 0, 0);
    ReadByte(t, 4, VersionOf(rs));
    FirstCount(rs);
  }

  lemma FirstCount(rs: seq<Recipe>)
    requires |rs| < 0x1_0000_0000
    ensures U32At(PutTrailerV1(rs), 0) == Some((|rs|, 4))
  {
    hide ToLE, U32At, All, Writer;
    var t := PutTrailerV1(rs);
    assert t[0..|t|] == t;
    AtSplit(t, 0, ToLE(|rs|, 4), All(rs, Writer(1)));
    ReadU32(t, 0, |rs|);
  }
}

/** From an instruction address to a name: the mapping that holds it, then the
    nearest symbol of the mapped file, read once and kept in a cache. */
module Symbols {
  import opened Words
  import opened Lookup
  import opened Numerals

  datatype Mapping = Mapping(start: u64, end: u64, offset: u64, path: string)

  datatype Sym = Sym(addr: u64, name: string)

  /** A symbol-table entry; its name is missing when the string table has none. */
  datatype RawSym = RawSym(value: u64, shndx: nat, name: Option<string>)

  datatype Elf = Elf(syms: seq<RawSym>, dynsyms: seq<RawSym>)

  /** What can be read and parsed; any other path yields no symbols. */
  type Files = map<string, Elf>

  type Cache = map<string, seq<Sym>>

  /** Library calls: the binary search and the last component of a path. */
  datatype Lib = Lib(search: Search, fileName: string -> string)

  const U64_MAX: u64 := 0xffff_ffff_ffff_ffff

  function StartOf(m: Mapping): u64 { m.start }

  function AddrOf(s: Sym): u64 { s.addr }

  ghost predicate Sorted(syms: seq<Sym>) {
    Ascending(Keys(syms, AddrOf))
  }

  // ----- The nearest symbol -----

  /** The name at the found index or before the gap, if `x` lies below the next
      address, which is the largest word after the last symbol. */
  function Nearest(search: Search, syms: seq<Sym>, x: u64): Option<string> {
    match AtOrBefore(search(Keys(syms, AddrOf), x))
    case None => None
    case Some(i) =>
      if i < |syms| && syms[i].addr <= x < (if i + 1 < |syms| then syms[i + 1].addr else U64_MAX)
      then Some(syms[i].name)
      else None
  }

  /** The reference: the name of the last symbol at or below `x`, by a linear scan. */
  function Scan(syms: seq<Sym>, x: u64): Option<string> {
    match LastAtMost(Keys(syms, AddrOf), x)
    case None => None
    case Some(k) => Some(syms[k].name)
  }

  /** At most one symbol has the address `x`. */
  predicate Single(syms: seq<Sym>, x: u64) {
    forall i, j | 0 <= i < j < |syms| :: syms[i].addr != x || syms[j].addr != x
  }

  /** The lookup gives the scan's name or none; none exactly when no symbol is
      low enough, at the largest word, or when the search stops at a symbol
      that shares its address with a later one. */
  lemma NearestExact(search: Search, syms: seq<Sym>, x: u64)
    requires ValidSearch(search) && Sorted(syms)
    ensures Nearest(search, syms, x) ==
            if x < U64_MAX && AtOrBefore(search(Keys(syms, AddrOf), x)) == LastAtMost(Keys(syms, AddrOf), x)
            then Scan(syms, x) else None
  {
    var ks := Keys(syms, AddrOf);
    SearchRefinesScan(search, ks, x);
    match LastAtMost(ks, x)
    case None =>
    case Some(k) =>
      var i := AtOrBefore(search(ks, x)).value;
      assert syms[i].addr == ks[i] && syms[k].addr == ks[k];
      if i < k {
        assert ks[i] <= ks[i + 1] <= ks[k];
      } else if k + 1 < |syms| {
        assert ks[k + 1] > x;
      }
  }

  /** A returned name belongs to a symbol with the greatest address at or below
      the one looked up, whatever the search does among equal addresses. */
  lemma NamedIsNearest(search: Search, syms: seq<Sym>, x: u64)
    requires ValidSearch(search) && Sorted(syms) && Nearest(search, syms, x).Some?
    ensures exists k :: 0 <= k < |syms| && Nearest(search, syms, x) == Some(syms[k].name) && syms[k].addr <= x
                        && forall j | 0 <= j < |syms| && syms[j].addr <= x :: syms[j].addr <= syms[k].addr
  {
    var ks := Keys(syms, AddrOf);
    NearestExact(search, syms, x);
    var k := LastAtMost(ks, x).value;
    assert syms[k].addr == ks[k];
    forall j | 0 <= j < |syms| && syms[j].addr <= x ensures syms[j].addr <= syms[k].addr {
      assert ks[j] == syms[j].addr;
      assert j <= k;
    }
  }

  /** Below the largest word, and where no two symbols share the address looked
      up, the offset fallback is taken exactly when every address is larger. */
  lemma FallbackExact(search: Search, syms: seq<Sym>, x: u64)
    requires ValidSearch(search) && Sorted(syms) && Single(syms, x) && x < U64_MAX
    ensures Nearest(search, syms, x) == Scan(syms, x)
    ensures Nearest(search, syms, x) == None <==> forall j | 0 <= j < |syms| :: syms[j].addr > x
  {
    var ks := Keys(syms, AddrOf);
    NearestExact(search, syms, x);
    SearchRefinesScan(search, ks, x);
    assert forall j | 0 <= j < |syms| :: ks[j] == syms[j].addr;
  }

  lemma StrictIsSingle(syms: seq<Sym>, x: u64)
    requires StrictlyAscending(Keys(syms, AddrOf))
    ensures Sorted(syms) && Single(syms, x)
  {
    var ks := Keys(syms, AddrOf);
    forall i, j | 0 <= i < j < |syms| ensures syms[i].addr != x || syms[j].addr != x {
      assert ks[i] < ks[j];
    }
  }

  /** In a list without shared addresses every symbol's own address gets its name. */
  lemma OwnAddress(search: Search, syms: seq<Sym>, k: nat)
    requires ValidSearch(search) && StrictlyAscending(Keys(syms, AddrOf))
    requires k < |syms| && syms[k].addr < U64_MAX
    ensures Nearest(search, syms, syms[k].addr) == Some(syms[k].name)
  {
    var ks := Keys(syms, AddrOf);
    StrictIsSingle(syms, syms[k].addr);
    FallbackExact(search, syms, syms[k].addr);
    assert ks[k] == syms[k].addr;
    assert LastAtMost(ks, ks[k]) == Some(k);
  }

  /** Every address from a symbol's own up to the next one's gets its name. */
  lemma InRangeOf(search: Search, syms: seq<Sym>, k: nat, x: u64)
    requires ValidSearch(search) && StrictlyAscending(Keys(syms, AddrOf)) && k < |syms|
    requires syms[k].addr <= x < (if k + 1 < |syms| then syms[k + 1].addr else 0xffff_ffff_ffff_ffff)
    ensures Nearest(search, syms, x) == Some(syms[k].name)
  {
    var ks := Keys(syms, AddrOf);
    StrictIsSingle(syms, x);
    FallbackExact(search, syms, x);
    assert ks[k] == syms[k].addr;
    forall j | k < j < |ks| ensures ks[j] > x {
      assert ks[k + 1] == syms[k + 1].addr && ks[k + 1] <= ks[j];
    }
    assert LastAtMost(ks, x) == Some(k);
  }

  lemma NoneBelow(search: Search, syms: seq<Sym>, x: u64)
    requires ValidSearch(search) && Sorted(syms) && forall k | 0 <= k < |syms| :: syms[k].addr > x
    ensures Nearest(search, syms, x) == None
  {
    NearestExact(search, syms, x);
    assert forall j | 0 <= j < |syms| :: Keys(syms, AddrOf)[j] == syms[j].addr;
  }

  /** Where two symbols share the address, one valid search gives no name at
      all and another gives the last one's. */
  lemma {:induction false} TieBreakMatters(syms: seq<Sym>, x: u64)
    requires Sorted(syms) && !Single(syms, x) && x < U64_MAX
    ensures ValidSearch(First) && Nearest(First, syms, x) == None
    ensures ValidSearch(Last) && Nearest(Last, syms, x) == Scan(syms, x) != None
  {
    BothEndsAreValid();
    var ks := Keys(syms, AddrOf);
    var i, j :| 0 <= i < j < |syms| && syms[i].addr == x && syms[j].addr == x;
    assert ks[i] == x && ks[j] == x;
    NearestExact(First, syms, x);
    NearestExact(Last, syms, x);
    assert LastAtMost(ks, x).value >= j && First(ks, x).at <= i;
  }

  predicate Settled(syms: seq<Sym>, x: u64) {
    (forall j | 0 <= j < |syms| :: syms[j].addr > x) || (x < U64_MAX && Single(syms, x))
  }

  lemma SettledAgrees(search: Search, syms: seq<Sym>, x: u64)
    requires Sorted(syms) && ValidSearch(search) && Settled(syms, x)
    ensures Nearest(search, syms, x) == Scan(syms, x)
  {
    if x < U64_MAX && Single(syms, x) {
      FallbackExact(search, syms, x);
    } else {
      NearestExact(search, syms, x);
      assert forall j | 0 <= j < |syms| :: Keys(syms, AddrOf)[j] == syms[j].addr;
    }
  }

  lemma UnsettledDiffers(syms: seq<Sym>, x: u64)
    requires Sorted(syms) && ValidSearch(First) && !Settled(syms, x)
    ensures Nearest(First, syms, x) != Scan(syms, x)
  {
    if x < U64_MAX {
      TieBreakMatters(syms, x);
    } else {
      NearestExact(First, syms, x);
      assert forall j | 0 <= j < |syms| :: Keys(syms, AddrOf)[j] == syms[j].addr;
    }
  }

  /** The lookup agrees with the linear scan for every valid search, if and only
      if no symbol is low enough, or the address is below the largest word and
      belongs to at most one symbol. */
  lemma NamesExactly(syms: seq<Sym>, x: u64)
    requires Sorted(syms)
    ensures (forall search: Search | ValidSearch(search) :: Nearest(search, syms, x) == Scan(syms, x))
            <==> Settled(syms, x)
  {
    if Settled(syms, x) {
      forall search: Search | ValidSearch(search) ensures Nearest(search, syms, x) == Scan(syms, x) {
        SettledAgrees(search, syms, x);
      }
    } else {
      BothEndsAreValid();
      UnsettledDiffers(syms, x);
    }
  }

  /** When the kernel hides its addresses, all of them read as zero: every address
      but zero and the largest word is given the name of the last line; zero gets
      it only if the search stops there, and the largest word gets none. */
  lemma HiddenAddresses(search: Search, syms: seq<Sym>, x: u64)
    requires ValidSearch(search) && syms != [] && (forall i | 0 <= i < |syms| :: syms[i].addr == 0)
    ensures Nearest(search, syms, x) ==
            if 0 < x < U64_MAX || (x == 0 && search(Keys(syms, AddrOf), 0) == Found(|syms| - 1))
            then Some(syms[|syms| - 1].name) else None
  {
    var ks := Keys(syms, AddrOf);
    NearestExact(search, syms, x);
    assert LastAtMost(ks, x) == Some(|syms| - 1);
    if 0 < x {
      SearchRefinesScan(search, ks, x);
    } else {
      assert Located(ks, 0, search(ks, 0)) && ks[0] == 0;
    }
  }

  // ----- The mapping -----

  predicate Contains(m: Mapping, ip: u64) {
    m.start <= ip < m.end
  }

  /** A mapping that starts at `ip` is taken without looking at its end. */
  function Choose(search: Search, maps: seq<Mapping>, ip: u64): (r: Option<nat>)
    requires ValidSearch(search) && Ascending(Keys(maps, StartOf))
    ensures r.Some? ==> r.value < |maps| && maps[r.value].start <= ip
    ensures r.Some? ==> Contains(maps[r.value], ip) || maps[r.value].start == ip
  {
    assert Located(Keys(maps, StartOf), ip, search(Keys(maps, StartOf), ip));
    match search(Keys(maps, StartOf), ip)
    case Found(i) => Some(i)
    case Missing(i) => if i > 0 && Contains(maps[i - 1], ip) then Some(i - 1) else None
  }

  /** Non-empty mappings, none of which reaches into a later one. */
  predicate WellLaid(maps: seq<Mapping>) {
    && (forall i | 0 <= i < |maps| :: maps[i].start < maps[i].end)
    && (forall i, j | 0 <= i < j < |maps| :: maps[i].end <= maps[j].start)
  }

  /** The chosen mapping is the one that contains the address, if any. */
  ghost predicate PicksContaining(search: Search, maps: seq<Mapping>)
    requires ValidSearch(search) && Ascending(Keys(maps, StartOf))
  {
    forall ip: u64, i | 0 <= i < |maps| :: Choose(search, maps, ip) == Some(i) <==> Contains(maps[i], ip)
  }

  lemma ChosenContains(search: Search, maps: seq<Mapping>)
    requires ValidSearch(search) && Ascending(Keys(maps, StartOf)) && WellLaid(maps)
    ensures PicksContaining(search, maps)
  {
    var ks := Keys(maps, StartOf);
    forall ip: u64, i | 0 <= i < |maps|
      ensures Choose(search, maps, ip) == Some(i) <==> Contains(maps[i], ip)
    {
      assert Located(ks, ip, search(ks, ip));
      assert ks[i] == maps[i].start;
      match search(ks, ip)
      case Found(j) =>
        assert ks[j] == maps[j].start;
      case Missing(j) =>
        if Contains(maps[i], ip) {
          assert i < j;
          assert ks[j - 1] == maps[j - 1].start < ip < maps[i].end;
          assert i == j - 1;
        }
    }
  }

  /** Every valid search picks the containing mapping for every address, if and
      only if the mappings are non-empty and disjoint. */
  lemma LayoutExact(maps: seq<Mapping>)
    requires Ascending(Keys(maps, StartOf))
    ensures (forall search: Search | ValidSearch(search) :: PicksContaining(search, maps)) <==> WellLaid(maps)
  {
    if WellLaid(maps) {
      forall search: Search | ValidSearch(search) ensures PicksContaining(search, maps) {
        ChosenContains(search, maps);
      }
    } else {
      BothEndsAreValid();
      if PicksContaining(First, maps) && PicksContaining(Last, maps) {
        PickingNeedsLayout(maps);
      }
    }
  }

  lemma PickingNeedsLayout(maps: seq<Mapping>)
    requires Ascending(Keys(maps, StartOf))
    requires ValidSearch(First) && ValidSearch(Last) && PicksContaining(First, maps) && PicksContaining(Last, maps)
    ensures WellLaid(maps)
  {
    forall i | 0 <= i < |maps| ensures maps[i].start < maps[i].end {
      StartIsContained(maps, i);
    }
    forall i, j | 0 <= i < j < |maps| ensures maps[i].end <= maps[j].start {
      assert Keys(maps, StartOf)[i] <= Keys(maps, StartOf)[j];
      StartIsContained(maps, j);
      assert Choose(First, maps, maps[j].start) == Some(j);
      assert !Contains(maps[i], maps[j].start);
    }
  }

  lemma StartIsContained(maps: seq<Mapping>, i: nat)
    requires Ascending(Keys(maps, StartOf)) && i < |maps|
    requires ValidSearch(First) && ValidSearch(Last) && PicksContaining(First, maps) && PicksContaining(Last, maps)
    ensures Contains(maps[i], maps[i].start)
  {
    var ks, ip := Keys(maps, StartOf), maps[i].start;
    assert ks[i] == ip;
    var a, b := First(ks, ip), LastAtMost(ks, ip);
    assert a.at <= i <= b.value;
    assert ks[i] <= ks[b.value];
    assert Choose(First, maps, ip) == Some(a.at) && Choose(Last, maps, ip) == Some(b.value);
    assert Contains(maps[b.value], ip);
  }

  // ----- One file's symbols -----

  /** Defined, placed and named entries, in table order. */
  function Kept(raw: seq<RawSym>): seq<Sym> {
    if raw == [] then []
    else
      var rest, r := Kept(raw[..|raw| - 1]), raw[|raw| - 1];
      if r.value != 0 && r.shndx != 0 && r.name.Some? && r.name.value != "" then rest + [Sym(r.value, r.name.value)]
      else rest
  }

  /** The table that is used: the dynamic one only when the full one is empty. */
  function Table(elf: Elf): seq<RawSym> {
    if elf.syms == [] then elf.dynsyms else elf.syms
  }

  function Loaded(files: Files, path: string): seq<Sym> {
    if path in files then StableSort(Kept(Table(files[path])), AddrOf) else []
  }

  lemma LoadedIsSorted(files: Files, path: string)
    ensures Sorted(Loaded(files, path))
    ensures path in files ==> StablySorted(Loaded(files, path), Kept(Table(files[path])), AddrOf)
  {
    if path in files {
      StableSortSorts(Kept(Table(files[path])), AddrOf);
    }
  }

  /** A table entry that is kept, as the symbol it becomes. */
  ghost predicate Makes(r: RawSym, s: Sym) {
    r == RawSym(s.addr, r.shndx, Some(s.name)) && s.addr != 0 && r.shndx != 0 && s.name != ""
  }

  lemma {:induction false} KeptExact(raw: seq<RawSym>, s: Sym)
    ensures s in Kept(raw) <==> exists i :: 0 <= i < |raw| && Makes(raw[i], s)
  {
    if raw != [] {
      var n := |raw| - 1;
      KeptExact(raw[..n], s);
      assert s in Kept(raw) <==> s in Kept(raw[..n]) || Makes(raw[n], s);
      assert forall i | 0 <= i < n :: raw[..n][i] == raw[i];
    }
  }

  /** A file's symbols are exactly the defined, placed and named entries of its full
      table, or of the dynamic one if the full one is empty. */
  lemma LoadedExact(files: Files, path: string, s: Sym)
    requires path in files
    ensures s in Loaded(files, path) <==>
            || (exists i :: 0 <= i < |files[path].syms| && Makes(files[path].syms[i], s))
            || (files[path].syms == []
                && exists i :: 0 <= i < |files[path].dynsyms| && Makes(files[path].dynsyms[i], s))
  {
    KeptExact(Table(files[path]), s);
    SortedMembers(Kept(Table(files[path])), AddrOf, s);
  }

  // ----- The cache -----

  /** A position in a mapped file. */
  datatype Place = Place(path: string, off: u64)

  function PlaceOf(lib: Lib, maps: seq<Mapping>, ip: u64): Option<Place>
    requires ValidSearch(lib.search) && Ascending(Keys(maps, StartOf))
  {
    match Choose(lib.search, maps, ip)
    case None => None
    case Some(i) => Some(Place(maps[i].path, WrappingAdd(ip - maps[i].start, maps[i].offset)))
  }

  /** An address `d` bytes into a mapping is `d` bytes past the mapping's offset in
      its file, modulo 2^64; an address in no mapping is nowhere. */
  lemma PlaceExact(lib: Lib, maps: seq<Mapping>, ip: u64)
    requires ValidSearch(lib.search) && Ascending(Keys(maps, StartOf)) && WellLaid(maps)
    ensures forall i | 0 <= i < |maps| && maps[i].start <= ip < maps[i].end ::
              var off := maps[i].offset + (ip - maps[i].start);
              PlaceOf(lib, maps, ip) == Some(Place(maps[i].path, if off < 0x1_0000_0000_0000_0000 then off
                                                                 else off - 0x1_0000_0000_0000_0000))
    ensures (forall i | 0 <= i < |maps| :: !(maps[i].start <= ip < maps[i].end)) ==> PlaceOf(lib, maps, ip) == None
  {
    ChosenContains(lib.search, maps);
    forall i | 0 <= i < |maps| ensures Choose(lib.search, maps, ip) == Some(i) <==> maps[i].start <= ip < maps[i].end {
      assert Contains(maps[i], ip) <==> maps[i].start <= ip < maps[i].end;
    }
  }

  /** Every position of a file that a mapping shows is found at its own address. */
  lemma FileOffsetFound(lib: Lib, maps: seq<Mapping>, i: nat, x: u64)
    requires ValidSearch(lib.search) && Ascending(Keys(maps, StartOf)) && WellLaid(maps) && i < |maps|
    requires maps[i].offset <= x < maps[i].offset + (maps[i].end - maps[i].start)
    ensures PlaceOf(lib, maps, maps[i].start + (x - maps[i].offset)) == Some(Place(maps[i].path, x))
  {
    PlaceExact(lib, maps, maps[i].start + (x - maps[i].offset));
  }

  /** The path whose symbols a lookup needs, if any. */
  function Touched(lib: Lib, maps: seq<Mapping>, ip: u64): Option<string>
    requires ValidSearch(lib.search) && Ascending(Keys(maps, StartOf))
  {
    match PlaceOf(lib, maps, ip)
    case None => None
    case Some(at) => Some(at.path)
  }

  /** The cache after a lookup, with the files as they are then. */
  function Warm(lib: Lib, maps: seq<Mapping>, cache: Cache, files: Files, ip: u64): (after: Cache)
    requires ValidSearch(lib.search) && Ascending(Keys(maps, StartOf))
    ensures var t := Touched(lib, maps, ip); t.Some? ==> t.value in after
  {
    match Touched(lib, maps, ip)
    case None => cache
    case Some(p) => if p in cache then cache else cache[p := Loaded(files, p)]
  }

  function Unmapped(ip: u64): string {
    "0x" + Hex(ip)
  }

  function Unnamed(lib: Lib, path: string, off: u64): string {
    lib.fileName(path) + "!+0x" + Hex(off)
  }

  function Describe(lib: Lib, syms: seq<Sym>, path: string, off: u64): string {
    match Nearest(lib.search, syms, off)
    case Some(name) => name
    case None => Unnamed(lib, path, off)
  }

  /** The answer of a lookup whose file, if any, is in the cache. */
  function Answer(lib: Lib, maps: seq<Mapping>, cache: Cache, ip: u64): string
    requires ValidSearch(lib.search) && Ascending(Keys(maps, StartOf))
    requires var t := Touched(lib, maps, ip); t.Some? ==> t.value in cache
  {
    match PlaceOf(lib, maps, ip)
    case None => Unmapped(ip)
    case Some(at) => Describe(lib, cache[at.path], at.path, at.off)
  }

  /** The answer of a symbolizer that has cached nothing. */
  function Fresh(lib: Lib, maps: seq<Mapping>, files: Files, ip: u64): string
    requires ValidSearch(lib.search) && Ascending(Keys(maps, StartOf))
  {
    Answer(lib, maps, Warm(lib, maps, map[], files, ip), ip)
  }

  /** Every cached list is what its file holds. */
  ghost predicate Faithful(cache: Cache, files: Files) {
    forall p | p in cache :: cache[p] == Loaded(files, p)
  }

  /** From such a cache a lookup gives the uncached answer and leaves such a cache. */
  lemma FaithfulAnswers(lib: Lib, maps: seq<Mapping>, cache: Cache, files: Files, ip: u64)
    requires ValidSearch(lib.search) && Ascending(Keys(maps, StartOf)) && Faithful(cache, files)
    ensures Faithful(Warm(lib, maps, cache, files, ip), files)
    ensures Answer(lib, maps, Warm(lib, maps, cache, files, ip), ip) == Fresh(lib, maps, files, ip)
  {
  }

  /** Where a file's symbols have addresses of their own, an address whose file
      position lies from one symbol up to the next gets that symbol's name. */
  lemma FreshNames(lib: Lib, maps: seq<Mapping>, files: Files, i: nat, k: nat, x: u64)
    requires ValidSearch(lib.search) && Ascending(Keys(maps, StartOf)) && WellLaid(maps) && i < |maps|
    requires maps[i].offset <= x < maps[i].offset + (maps[i].end - maps[i].start)
    requires var syms := Loaded(files, maps[i].path);
             && StrictlyAscending(Keys(syms, AddrOf)) && k < |syms|
             && syms[k].addr <= x < (if k + 1 < |syms| then syms[k + 1].addr else 0xffff_ffff_ffff_ffff)
    ensures Fresh(lib, maps, files, maps[i].start + (x - maps[i].offset)) == Loaded(files, maps[i].path)[k].name
  {
    FileOffsetFound(lib, maps, i, x);
    InRangeOf(lib.search, Loaded(files, maps[i].path), k, x);
  }

  /** An address in no mapping is printed as it is. */
  lemma FreshUnmapped(lib: Lib, maps: seq<Mapping>, files: Files, ip: u64)
    requires ValidSearch(lib.search) && Ascending(Keys(maps, StartOf)) && WellLaid(maps)
    requires forall i | 0 <= i < |maps| :: !(maps[i].start <= ip < maps[i].end)
    ensures Fresh(lib, maps, files, ip) == "0x" + Hex(ip)
  {
    PlaceExact(lib, maps, ip);
  }

  /** One whose file position comes before every symbol of its file is printed as the
      file's name and the position. */
  lemma FreshFallback(lib: Lib, maps: seq<Mapping>, files: Files, i: nat, x: u64)
    requires ValidSearch(lib.search) && Ascending(Keys(maps, StartOf)) && WellLaid(maps) && i < |maps|
    requires maps[i].offset <= x < maps[i].offset + (maps[i].end - maps[i].start)
    requires forall k | 0 <= k < |Loaded(files, maps[i].path)| :: Loaded(files, maps[i].path)[k].addr > x
    ensures Fresh(lib, maps, files, maps[i].start + (x - maps[i].offset))
            == lib.fileName(maps[i].path) + "!+0x" + Hex(x)
  {
    FileOffsetFound(lib, maps, i, x);
    LoadedIsSorted(files, maps[i].path);
    NoneBelow(lib.search, Loaded(files, maps[i].path), x);
  }

  function KernelName(search: Search, ksyms: seq<Sym>, ip: u64): string {
    match Nearest(search, ksyms, ip)
    case Some(name) => "[k] " + name
    case None => "[k] 0x" + Hex(ip)
  }

  /** A kernel address is printed with the name of the symbol it lies in, or as it is. */
  lemma KernelNamesExact(search: Search, ksyms: seq<Sym>, ip: u64)
    requires ValidSearch(search) && Sorted(ksyms)
    ensures StrictlyAscending(Keys(ksyms, AddrOf)) ==>
              forall k | 0 <= k < |ksyms|
                         && ksyms[k].addr <= ip
                         && ip < (if k + 1 < |ksyms| then ksyms[k + 1].addr else 0xffff_ffff_ffff_ffff) ::
                KernelName(search, ksyms, ip) == "[k] " + ksyms[k].name
    ensures (forall k | 0 <= k < |ksyms| :: ksyms[k].addr > ip) ==> KernelName(search, ksyms, ip) == "[k] 0x" + Hex(ip)
  {
    if StrictlyAscending(Keys(ksyms, AddrOf)) {
      forall k | 0 <= k < |ksyms|
                 && ksyms[k].addr <= ip < (if k + 1 < |ksyms| then ksyms[k + 1].addr else 0xffff_ffff_ffff_ffff)
        ensures KernelName(search, ksyms, ip) == "[k] " + ksyms[k].name
      {
        InRangeOf(search, ksyms, k, ip);
      }
    }
    if forall k | 0 <= k < |ksyms| :: ksyms[k].addr > ip {
      NoneBelow(search, ksyms, ip);
    }
  }

  class Symbolizer {
    const mappings: seq<Mapping>
    const ksyms: seq<Sym>
    var cache: Cache

    ghost predicate Valid()
      reads this
    {
      && Ascending(Keys(mappings, StartOf)) && Sorted(ksyms)
      && forall p | p in cache :: Sorted(cache[p])
    }

    constructor (maps: seq<Mapping>, kallsyms: seq<Sym>)
      requires Ascending(Keys(maps, StartOf)) && Sorted(kallsyms)
      ensures Valid() && cache == map[] && mappings == maps && ksyms == kallsyms
    {
      mappings, ksyms, cache := maps, kallsyms, map[];
    }

    /** A file is read only if its path is not in the cache. */
    method LoadSyms(files: Files, path: string) returns (syms: seq<Sym>)
      requires Valid()
      modifies this`cache
      ensures Valid() && path in cache && syms == cache[path]
      ensures cache == if path in old(cache) then old(cache) else old(cache)[path := Loaded(files, path)]
    {
      if path !in cache {
        var loaded: seq<Sym> := [];
        if path in files {
          var useDynsym := files[path].syms == [];
          loaded := Kept(if useDynsym then files[path].dynsyms else files[path].syms);
        }
        LoadedIsSorted(files, path);
        loaded := StableSort(loaded, AddrOf);
        cache := cache[path := loaded];
      }
      syms := cache[path];
    }

    method Resolve(lib: Lib, files: Files, ip: u64) returns (name: string)
      requires Valid() && ValidSearch(lib.search)
      modifies this`cache
      ensures Valid() && cache == Warm(lib, mappings, old(cache), files, ip)
      ensures name == Answer(lib, mappings, cache, ip)
    {
      var at := Locate(lib, ip);
      if at == None {
        return Unmapped(ip);
      }
      var syms := LoadSyms(files, at.value.path);
      name := NameIn(lib, syms, at.value.path, at.value.off);
    }

    /** The first half of a lookup: the mapping, and the offset in its file. */
    method Locate(lib: Lib, ip: u64) returns (at: Option<Place>)
      requires Valid() && ValidSearch(lib.search)
      ensures at == PlaceOf(lib, mappings, ip)
    {
      var m: Mapping;
      match lib.search(Keys(mappings, StartOf), ip) {
        case Found(i) => m := mappings[i];
        case Missing(i) =>
          if i == 0 {
            return None;
          }
          m := mappings[i - 1];
          if !(ip >= m.start && ip < m.end) {
            return None;
          }
      }
      return Some(Place(m.path, WrappingAdd(ip - m.start, m.offset)));
    }

    /** The second half of a lookup, in the symbols of the mapped file. */
    static method NameIn(lib: Lib, syms: seq<Sym>, path: string, fileOff: u64) returns (name: string)
      requires Sorted(syms) && ValidSearch(lib.search)
      ensures name == Describe(lib, syms, path, fileOff)
    {
      var idx: nat;
      match lib.search(Keys(syms, AddrOf), fileOff) {
        case Found(i) => idx := i;
        case Missing(i) =>
          if i == 0 {
            return Unnamed(lib, path, fileOff);
          }
          idx := i - 1;
      }
      if idx < |syms| {
        var next := if idx + 1 < |syms| then syms[idx + 1].addr else U64_MAX;
        if fileOff >= syms[idx].addr && fileOff < next {
          return syms[idx].name;
        }
      }
      return Unnamed(lib, path, fileOff);
    }

    method ResolveKernel(lib: Lib, ip: u64) returns (name: string)
      requires Valid() && ValidSearch(lib.search)
      ensures name == KernelName(lib.search, ksyms, ip)
    {
      var idx: nat;
      match lib.search(Keys(ksyms, AddrOf), ip) {
        case Found(i) => idx := i;
        case Missing(i) =>
          if i == 0 {
            return "[k] 0x" + Hex(ip);
          }
          idx := i - 1;
      }
      if idx < |ksyms| {
        var next := if idx + 1 < |ksyms| then ksyms[idx + 1].addr else U64_MAX;
        if ip >= ksyms[idx].addr && ip < next {
          return "[k] " + ksyms[idx].name;
        }
      }
      return "[k] 0x" + Hex(ip);
    }
  }

  // ----- Sequences of lookups -----

  /** A lookup, with the contents of the files at its time. */
  datatype Query = Query(files: Files, ip: u64)

  function CacheAfter(lib: Lib, maps: seq<Mapping>, qs: seq<Query>): Cache
    requires ValidSearch(lib.search) && Ascending(Keys(maps, StartOf))
  {
    if qs == [] then map[]
    else
      var q := qs[|qs| - 1];
      Warm(lib, maps, CacheAfter(lib, maps, qs[..|qs| - 1]), q.files, q.ip)
  }

  /** `qs[i]` is the first lookup that needs `path`. */
  ghost predicate FirstNeeds(lib: Lib, maps: seq<Mapping>, qs: seq<Query>, path: string, i: nat)
    requires ValidSearch(lib.search) && Ascending(Keys(maps, StartOf))
  {
    && i < |qs| && Touched(lib, maps, qs[i].ip) == Some(path)
    && forall j | 0 <= j < i :: Touched(lib, maps, qs[j].ip) != Some(path)
  }

  /** The first lookup that needs `path` among the given ones, if any. */
  function FirstNeed(lib: Lib, maps: seq<Mapping>, qs: seq<Query>, path: string): (r: Option<nat>)
    requires ValidSearch(lib.search) && Ascending(Keys(maps, StartOf))
    ensures match r
            case Some(i) => FirstNeeds(lib, maps, qs, path, i)
            case None => forall j | 0 <= j < |qs| :: Touched(lib, maps, qs[j].ip) != Some(path)
  {
    if qs == [] then None
    else
      var n := |qs| - 1;
      assert forall j | 0 <= j < n :: qs[..n][j] == qs[j];
      var r := FirstNeed(lib, maps, qs[..n], path);
      if r.Some? then r
      else if Touched(lib, maps, qs[n].ip) == Some(path) then Some(n)
      else None
  }

  /** A path is cached if and only if some lookup needed it, and then its entry
      is what the file held at the first of them. */
  lemma {:induction false} CachedAtFirstNeed(lib: Lib, maps: seq<Mapping>, qs: seq<Query>, path: string)
    requires ValidSearch(lib.search) && Ascending(Keys(maps, StartOf))
    ensures match FirstNeed(lib, maps, qs, path)
            case Some(i) =>
              && path in CacheAfter(lib, maps, qs)
              && CacheAfter(lib, maps, qs)[path] == Loaded(qs[i].files, path)
            case None => path !in CacheAfter(lib, maps, qs)
  {
    if qs != [] {
      CachedAtFirstNeed(lib, maps, qs[..|qs| - 1], path);
    }
  }

  /** After any lookups, whatever the files did in between, an answer is that of
      an uncached symbolizer on the files as the first lookup that needed this
      path saw them. */
  lemma AnswersAreOfFirstNeed(lib: Lib, maps: seq<Mapping>, qs: seq<Query>, q: Query, path: string) returns (i: nat)
    requires ValidSearch(lib.search) && Ascending(Keys(maps, StartOf))
    requires Touched(lib, maps, q.ip) == Some(path)
    ensures FirstNeeds(lib, maps, qs + [q], path, i)
    ensures Answer(lib, maps, CacheAfter(lib, maps, qs + [q]), q.ip) == Fresh(lib, maps, (qs + [q])[i].files, q.ip)
  {
    var all := qs + [q];
    assert all[..|qs|] == qs;
    CachedAtFirstNeed(lib, maps, all, path);
    assert all[|qs|] == q;
    i := FirstNeed(lib, maps, all, path).value;
  }

  /** While the files do not change, every answer equals that of an uncached
      symbolizer: it does not depend on the lookups before it or on their order. */
  lemma {:induction false} CacheTransparent(lib: Lib, maps: seq<Mapping>, files: Files, qs: seq<Query>, q: Query)
    requires ValidSearch(lib.search) && Ascending(Keys(maps, StartOf))
    requires q.files == files && forall i | 0 <= i < |qs| :: qs[i].files == files
    ensures Answer(lib, maps, CacheAfter(lib, maps, qs + [q]), q.ip) == Fresh(lib, maps, files, q.ip)
    ensures forall p | p in CacheAfter(lib, maps, qs) ::
              CacheAfter(lib, maps, qs)[p] == Loaded(files, p) && Sorted(CacheAfter(lib, maps, qs)[p])
  {
    var t := Touched(lib, maps, q.ip);
    if t.Some? {
      var i := AnswersAreOfFirstNeed(lib, maps, qs, q, t.value);
    }
    assert (qs + [q])[..|qs|] == qs;
    forall p | p in CacheAfter(lib, maps, qs)
      ensures CacheAfter(lib, maps, qs)[p] == Loaded(files, p) && Sorted(CacheAfter(lib, maps, qs)[p])
    {
      CachedAtFirstNeed(lib, maps, qs, p);
      LoadedIsSorted(files, p);
    }
  }
}

/** Semicolons in names: kernel stacks keep keys of their own whatever their
    symbols are called, while a kernel symbol with a semicolon can share the key
    of a kernel and a user frame. */
module Semicolons {
  import opened Words
  import opened Numerals
  import opened Lookup
  import opened Symbols
  import opened FoldedText
  import opened ProcText
  import opened Flamegraph

  // ----- Kernel stacks -----

  const MARK: string := "[k]"

  /** The mark, a blank, and text without blanks. */
  ghost predicate KernelFrame(f: string) {
    |f| >= 4 && f[..4] == MARK + " " && ' ' !in f[4..]
  }

  lemma MarkedIsKernelFrame(body: string)
    requires ' ' !in body
    ensures KernelFrame("[k] " + body)
  {
    assert ("[k] " + body)[..4] == MARK + " " && ("[k] " + body)[4..] == body;
  }

  lemma NamedHasNoBlank(search: Search, kallsyms: string, ip: u64)
    requires Nearest(search, ParseKallsyms(kallsyms), ip).Some?
    ensures ' ' !in Nearest(search, ParseKallsyms(kallsyms), ip).value
  {
    var ksyms := ParseKallsyms(kallsyms);
    var i :| 0 <= i < |ksyms| && ksyms[i].name == Nearest(search, ksyms, ip).value;
    KernelNamesHaveNoBlank(kallsyms, ksyms[i]);
  }

  lemma FrameShape(search: Search, syms: seq<Sym>, ip: u64)
    requires Nearest(search, syms, ip).Some? ==> ' ' !in Nearest(search, syms, ip).value
    ensures KernelFrame(KernelName(search, syms, ip))
  {
    match Nearest(search, syms, ip)
    case Some(name) =>
      MarkedIsKernelFrame(name);
    case None =>
      HexDigitsOnly(ip);
      assert ' ' !in "0x" && "[k] " + ("0x" + Hex(ip)) == "[k] 0x" + Hex(ip);
      MarkedIsKernelFrame("0x" + Hex(ip));
  }

  /** Every kernel frame has this form, for the symbols of any list. */
  lemma KernelNameShape(search: Search, kallsyms: string, ip: u64)
    ensures KernelFrame(KernelName(search, ParseKallsyms(kallsyms), ip))
  {
    if Nearest(search, ParseKallsyms(kallsyms), ip).Some? {
      NamedHasNoBlank(search, kallsyms, ip);
    }
    FrameShape(search, ParseKallsyms(kallsyms), ip);
  }

  ghost predicate KernelFrames(fs: seq<string>) {
    forall i | 0 <= i < |fs| :: KernelFrame(fs[i])
  }

  /** What stands before the last blank of a joined kernel stack. */
  function BeforeLast(front: seq<string>): string {
    if front == [] then MARK else Join(front, ';') + ";" + MARK
  }

  /** The last blank of a joined kernel stack is that of its last frame. */
  lemma LastBlank(fs: seq<string>)
    requires fs != [] && KernelFrames(fs)
    ensures var front, body := fs[..|fs| - 1], fs[|fs| - 1][4..];
            && Join(fs, ';') == BeforeLast(front) + " " + body
            && LastSpace(Join(fs, ';')) == Some(|BeforeLast(front)|)
  {
    var front, last := fs[..|fs| - 1], fs[|fs| - 1];
    var body := last[4..];
    assert last == last[..4] + body && last == MARK + " " + body;
    if front == [] {
      assert fs == [last];
    } else {
      assert fs == front + [last];
      JoinNext(front, last, ';');
      assert Join(front, ';') + [';'] + (MARK + " " + body) == Join(front, ';') + ";" + MARK + " " + body;
    }
    LastSpaceOf(BeforeLast(front), body);
  }

  lemma KernelJoinLong(fs: seq<string>)
    requires fs != [] && KernelFrames(fs)
    ensures |Join(fs, ';')| >= 4
  {
    LastBlank(fs);
  }

  lemma SameFront(a: seq<string>, b: seq<string>)
    requires KernelFrames(a) && KernelFrames(b) && BeforeLast(a) == BeforeLast(b)
    ensures a == [] <==> b == []
    ensures a != [] && b != [] ==> Join(a, ';') == Join(b, ';')
  {
    if a != [] {
      KernelJoinLong(a);
    }
    if b != [] {
      KernelJoinLong(b);
    }
    if a != [] && b != [] {
      var n := |Join(a, ';')|;
      assert BeforeLast(a)[..n] == Join(a, ';') && BeforeLast(b)[..n] == Join(b, ';');
    }
  }

  lemma SamePieces(x: string, y: string, x': string, y': string)
    requires x + " " + y == x' + " " + y' && |x| == |x'|
    ensures x == x' && y == y'
  {
    var key, n := x + " " + y, |x|;
    assert key[..n] == x && key[..n] == x' && key[n + 1..] == y && key[n + 1..] == y';
  }

  /** Joined kernel stacks can be taken apart, even if symbols hold semicolons. */
  lemma {:induction false} KernelJoinUnique(a: seq<string>, b: seq<string>)
    requires a != [] && b != [] && KernelFrames(a) && KernelFrames(b) && Join(a, ';') == Join(b, ';')
    ensures a == b
    decreases |a|
  {
    var fa, fb, la, lb := a[..|a| - 1], b[..|b| - 1], a[|a| - 1], b[|b| - 1];
    LastBlank(a);
    LastBlank(b);
    SamePieces(BeforeLast(fa), la[4..], BeforeLast(fb), lb[4..]);
    assert la == la[..4] + la[4..] && lb == lb[..4] + lb[4..];
    SameFront(fa, fb);
    if fa != [] {
      KernelJoinUnique(fa, fb);
    }
    assert a == fa + [la] && b == fb + [lb];
  }

  lemma {:induction false} NamedKernelFrames(name: u64 -> string, ips: seq<u64>)
    requires forall i | 0 <= i < |ips| :: KernelFrame(name(ips[i]))
    ensures KernelFrames(Named(name, ips))
  {
    if ips != [] {
      NamedKernelFrames(name, ips[1..]);
    }
  }

  lemma KernelStackFrames(lib: Lib, files: Files, maps: seq<Mapping>, kallsyms: string, ev: StackEvent)
    requires ValidSearch(lib.search) && Ascending(Keys(maps, StartOf)) && UserIps(ev) == []
    ensures KernelFrames(Frames(NamesOf(lib, files, maps, ParseKallsyms(kallsyms)), ev))
  {
    var names := NamesOf(lib, files, maps, ParseKallsyms(kallsyms));
    forall ip: u64 ensures KernelFrame(names.kernel(ip)) {
      KernelNameShape(lib.search, kallsyms, ip);
    }
    NamedKernelFrames(names.kernel, KernelIps(ev));
    assert Frames(names, ev) == Named(names.kernel, KernelIps(ev));
  }

  /** Samples of the kernel alone share a key if and only if their frame lists are
      equal, for every text of the kernel's symbol list. */
  lemma KernelKeysOneToOne(lib: Lib, files: Files, maps: seq<Mapping>, kallsyms: string, a: StackEvent, b: StackEvent)
    requires ValidSearch(lib.search) && Ascending(Keys(maps, StartOf))
    requires UserIps(a) == [] && UserIps(b) == []
    ensures var names := NamesOf(lib, files, maps, ParseKallsyms(kallsyms));
            KeyOf(names, a) == KeyOf(names, b) <==> Frames(names, a) == Frames(names, b)
  {
    var names := NamesOf(lib, files, maps, ParseKallsyms(kallsyms));
    KernelStackFrames(lib, files, maps, kallsyms, a);
    KernelStackFrames(lib, files, maps, kallsyms, b);
    if KeyOf(names, a) == KeyOf(names, b) && KeyOf(names, a).Some? {
      KernelJoinUnique(Frames(names, a), Frames(names, b));
    }
  }

  // ----- A kernel frame and a user frame -----

  const LISTED: seq<KernelSym> := [KernelSym(16, 't', "a;b", None), KernelSym(32, 't', "a", None)]

  const MAPPED: seq<Region> := [Region(4096, 8192, "r-xp", 0, "fd:00", "7", "/x")]

  const FILES: Files := map["/x" := Elf([RawSym(16, 1, Some("b"))], [])]

  /** The kernel's list is read as two symbols. */
  lemma ListedSymbols()
    ensures ParseKallsyms(PrintKallsyms(LISTED)) == [Sym(16, "a;b"), Sym(32, "a")]
  {
    var syms := [Sym(16, "a;b"), Sym(32, "a")];
    assert LISTED[..1] == [LISTED[0]] && LISTED[..1][..0] == [];
    assert ReadSyms(LISTED) == syms;
    KallsymsRoundTrip(LISTED);
    assert Keys(syms, AddrOf) == [16, 32];
    StablySortedUnique(ParseKallsyms(PrintKallsyms(LISTED)), syms, syms, AddrOf);
  }

  lemma MappedFile()
    ensures ParseMaps(PrintMaps(MAPPED)) == [Mapping(4096, 8192, 0, "/x")]
  {
    var maps := [Mapping(4096, 8192, 0, "/x")];
    PlainPath();
    assert MAPPED[..0] == [] && ExpectedMaps(MAPPED) == maps;
    MapsRoundTrip(MAPPED);
    assert Keys(maps, StartOf) == [4096];
    StablySortedUnique(ParseMaps(PrintMaps(MAPPED)), maps, maps, StartOf);
  }

  lemma PlainPath()
    ensures WordEnd("/x") == 2 && "/x"[..2] == "/x"
  {
    WordEndOf("/x", "");
    assert "/x" + "" == "/x";
  }

  lemma LoadedSymbol()
    ensures Loaded(FILES, "/x") == [Sym(16, "b")]
  {
    var raw := [RawSym(16, 1, Some("b"))];
    assert raw[..0] == [] && Kept(raw) == [Sym(16, "b")];
    assert [Sym(16, "b")][..0] == [];
  }

  lemma UserName(lib: Lib)
    requires ValidSearch(lib.search)
    ensures Ascending(Keys(ParseMaps(PrintMaps(MAPPED)), StartOf))
    ensures Fresh(lib, ParseMaps(PrintMaps(MAPPED)), FILES, 4112) == "b"
  {
    MappedFile();
    MappedName(lib, ParseMaps(PrintMaps(MAPPED)));
  }

  lemma MappedPlace(lib: Lib, maps: seq<Mapping>)
    requires ValidSearch(lib.search) && maps == [Mapping(4096, 8192, 0, "/x")]
    ensures Ascending(Keys(maps, StartOf)) && PlaceOf(lib, maps, 4112) == Some(Place("/x", 16))
  {
    assert Keys(maps, StartOf) == [4096];
    ChosenContains(lib.search, maps);
    assert Contains(maps[0], 4112);
  }

  lemma MappedName(lib: Lib, maps: seq<Mapping>)
    requires ValidSearch(lib.search) && maps == [Mapping(4096, 8192, 0, "/x")]
    ensures Ascending(Keys(maps, StartOf)) && Fresh(lib, maps, FILES, 4112) == "b"
  {
    MappedPlace(lib, maps);
    LoadedSymbol();
    OneSymbol(lib, [Sym(16, "b")]);
  }

  lemma OneSymbol(lib: Lib, syms: seq<Sym>)
    requires ValidSearch(lib.search) && syms == [Sym(16, "b")]
    ensures Ascending(Keys(syms, AddrOf)) && Nearest(lib.search, syms, 16) == Some("b")
  {
    assert Keys(syms, AddrOf) == [16];
    OwnAddress(lib.search, syms, 0);
  }

  lemma KernelNames(search: Search)
    requires ValidSearch(search)
    ensures KernelName(search, ParseKallsyms(PrintKallsyms(LISTED)), 16) == "[k] a;b"
    ensures KernelName(search, ParseKallsyms(PrintKallsyms(LISTED)), 32) == "[k] a"
  {
    ListedSymbols();
    ListedNames(search, ParseKallsyms(PrintKallsyms(LISTED)));
  }

  lemma ListedNames(search: Search, syms: seq<Sym>)
    requires ValidSearch(search) && syms == [Sym(16, "a;b"), Sym(32, "a")]
    ensures KernelName(search, syms, 16) == "[k] a;b" && KernelName(search, syms, 32) == "[k] a"
  {
    assert Keys(syms, AddrOf) == [16, 32];
    OwnAddress(search, syms, 0);
    OwnAddress(search, syms, 1);
  }

  lemma SharedKey(names: Names)
    requires names.kernel(16) == "[k] a;b" && names.kernel(32) == "[k] a" && names.user(4112) == "b"
    ensures Frames(names, Sample(16, 0)) == ["[k] a;b"] && Frames(names, Sample(32, 4112)) == ["[k] a", "b"]
    ensures KeyOf(names, Sample(16, 0)) == KeyOf(names, Sample(32, 4112)) == Some("[k] a;b")
  {
    FramesOfSample(names, 16, 0);
    FramesOfSample(names, 32, 4112);
    assert ["[k] a", "b"][..1] == ["[k] a"];
    assert Join(["[k] a", "b"], ';') == "[k] a;b";
  }

  /** On texts as the kernel prints them, with any search: the kernel symbol "a;b"
      alone and the kernel symbol "a" above the user symbol "b" share a key. */
  lemma SemicolonCollides(lib: Lib)
    requires ValidSearch(lib.search)
    ensures Ascending(Keys(ParseMaps(PrintMaps(MAPPED)), StartOf))
    ensures var names := NamesOf(lib, FILES, ParseMaps(PrintMaps(MAPPED)), ParseKallsyms(PrintKallsyms(LISTED)));
            && Frames(names, Sample(16, 0)) == ["[k] a;b"] && Frames(names, Sample(32, 4112)) == ["[k] a", "b"]
            && KeyOf(names, Sample(16, 0)) == KeyOf(names, Sample(32, 4112)) == Some("[k] a;b")
  {
    KernelNames(lib.search);
    UserName(lib);
    var names := NamesOf(lib, FILES, ParseMaps(PrintMaps(MAPPED)), ParseKallsyms(PrintKallsyms(LISTED)));
    SharedKey(names);
  }
}

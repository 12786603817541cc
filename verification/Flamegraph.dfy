/** Stack samples folded into counted, joined frame names
    (aya-test/src/flamegraph.rs). */
module Flamegraph {
  import opened Words
  import opened Sums
  import opened Lookup
  import opened Symbols
  import opened FoldedText
  import opened ProcText
  import opened Numerals

  const MAX_STACK_FRAMES: nat := 20

  type i32 = n: int | -0x8000_0000 <= n < 0x8000_0000

  type IpArray = s: seq<u64> | |s| == 20 witness [0, 0, 0, 0, 0, 0, 0, 0, 0, 0, 0, 0, 0, 0, 0, 0, 0, 0, 0, 0]

  datatype StackEvent = StackEvent(
    pid: u32, cpu: u32, kstackLen: i32, ustackLen: i32, timestampNs: u64, kstackIps: IpArray, ustackIps: IpArray)

  /** The two name lookups, as functions of the instruction address. */
  datatype Names = Names(kernel: u64 -> string, user: u64 -> string)

  /** A negative length reads as zero, a long one as the array's. */
  function Clamp(len: i32): (n: nat)
    ensures n <= 20 && (0 <= len <= 20 ==> n == len)
    ensures (len < 0 ==> n == 0) && (len > 20 ==> n == 20)
  {
    Min(if len > 0 then len else 0, MAX_STACK_FRAMES)
  }

  /** The addresses other than zero, last one first. */
  function NonZeroReversed(ips: seq<u64>): seq<u64> {
    if ips == [] then []
    else
      var rest, ip := NonZeroReversed(ips[..|ips| - 1]), ips[|ips| - 1];
      if ip != 0 then [ip] + rest else rest
  }

  function Named(name: u64 -> string, ips: seq<u64>): (fs: seq<string>)
    ensures |fs| == |ips|
  {
    if ips == [] then [] else [name(ips[0])] + Named(name, ips[1..])
  }

  function KernelIps(ev: StackEvent): seq<u64> {
    NonZeroReversed(ev.kstackIps[..Clamp(ev.kstackLen)])
  }

  function UserIps(ev: StackEvent): seq<u64> {
    NonZeroReversed(ev.ustackIps[..Clamp(ev.ustackLen)])
  }

  /** Kernel frames, then user frames, each deepest first. */
  function Frames(names: Names, ev: StackEvent): seq<string> {
    Named(names.kernel, KernelIps(ev)) + Named(names.user, UserIps(ev))
  }

  function KeyOf(names: Names, ev: StackEvent): Option<string> {
    if Frames(names, ev) == [] then None else Some(Join(Frames(names, ev), ';'))
  }

  function KeysOf(names: Names, samples: seq<StackEvent>): (keys: seq<Option<string>>)
    ensures |keys| == |samples| && forall i | 0 <= i < |samples| :: keys[i] == KeyOf(names, samples[i])
  {
    if samples == [] then []
    else KeysOf(names, samples[..|samples| - 1]) + [KeyOf(names, samples[|samples| - 1])]
  }

  /** The counting map after the given keys, some of which may be missing. */
  function Tally(keys: seq<Option<string>>): map<string, nat> {
    if keys == [] then map[] else Counted(Tally(keys[..|keys| - 1]), keys[|keys| - 1])
  }

  function Counted(before: map<string, nat>, key: Option<string>): map<string, nat> {
    match key
    case None => before
    case Some(k) => before[k := (if k in before then before[k] else 0) + 1]
  }

  // ----- The fold loop -----

  /** The names an uncached lookup gives. */
  ghost function NamesOf(lib: Lib, files: Files, maps: seq<Mapping>, ksyms: seq<Sym>): Names
    requires ValidSearch(lib.search) && Ascending(Keys(maps, StartOf))
  {
    Names(
      (ip: u64) => KernelName(lib.search, ksyms, ip),
      (ip: u64) requires ValidSearch(lib.search) && Ascending(Keys(maps, StartOf)) => Fresh(lib, maps, files, ip))
  }

  ghost predicate Ready(lib: Lib, files: Files, sym: Symbolizer, names: Names)
    reads sym
  {
    && sym.Valid() && ValidSearch(lib.search) && Faithful(sym.cache, files)
    && names == NamesOf(lib, files, sym.mappings, sym.ksyms)
  }

  method NameKernel(lib: Lib, ghost files: Files, sym: Symbolizer, ghost names: Names, ip: u64) returns (name: string)
    requires Ready(lib, files, sym, names)
    ensures name == names.kernel(ip)
  {
    name := sym.ResolveKernel(lib, ip);
  }

  method NameUser(lib: Lib, files: Files, sym: Symbolizer, ghost names: Names, ip: u64) returns (name: string)
    requires Ready(lib, files, sym, names)
    modifies sym`cache
    ensures Ready(lib, files, sym, names) && name == names.user(ip)
  {
    FaithfulAnswers(lib, sym.mappings, sym.cache, files, ip);
    name := sym.Resolve(lib, files, ip);
  }

  method PushKernel(lib: Lib, ghost files: Files, sym: Symbolizer, ghost names: Names, ips: seq<u64>)
    returns (frames: seq<string>)
    requires Ready(lib, files, sym, names)
    ensures frames == Named(names.kernel, NonZeroReversed(ips))
  {
    ghost var all := Named(names.kernel, NonZeroReversed(ips));
    frames := [];
    assert ips[..|ips|] == ips && frames + all == all;
    for j := |ips| downto 0
      invariant frames + Named(names.kernel, NonZeroReversed(ips[..j])) == all
    {
      NextNamed(names.kernel, ips, j, frames, all);
      if ips[j] != 0 {
        var name := NameKernel(lib, files, sym, names, ips[j]);
        frames := frames + [name];
      }
    }
  }

  method PushUser(lib: Lib, files: Files, sym: Symbolizer, ghost names: Names, ips: seq<u64>, before: seq<string>)
    returns (frames: seq<string>)
    requires Ready(lib, files, sym, names)
    modifies sym`cache
    ensures Ready(lib, files, sym, names)
    ensures frames == before + Named(names.user, NonZeroReversed(ips))
  {
    ghost var all := before + Named(names.user, NonZeroReversed(ips));
    frames := before;
    assert ips[..|ips|] == ips;
    for j := |ips| downto 0
      invariant Ready(lib, files, sym, names)
      invariant frames + Named(names.user, NonZeroReversed(ips[..j])) == all
    {
      NextNamed(names.user, ips, j, frames, all);
      if ips[j] != 0 {
        var name := NameUser(lib, files, sym, names, ips[j]);
        frames := frames + [name];
      }
    }
  }

  method Collect(lib: Lib, files: Files, sym: Symbolizer, ghost names: Names, ev: StackEvent)
    returns (frames: seq<string>)
    requires Ready(lib, files, sym, names)
    modifies sym`cache
    ensures Ready(lib, files, sym, names)
    ensures frames == Frames(names, ev)
    ensures KeyOf(names, ev) == if frames == [] then None else Some(Join(frames, ';'))
  {
    var klen, ulen := Clamp(ev.kstackLen), Clamp(ev.ustackLen);
    frames := PushKernel(lib, files, sym, names, ev.kstackIps[..klen]);
    frames := PushUser(lib, files, sym, names, ev.ustackIps[..ulen], frames);
  }

  /** The folded map of a non-empty sample list, named by the mappings of the
      first sample's process; `mapsText` is what its maps file holds. */
  method FoldSamples(lib: Lib, files: Files, mapsText: u32 -> string, kallsyms: string, samples: seq<StackEvent>)
    returns (r: Option<map<string, u64>>)
    requires ValidSearch(lib.search) && |samples| < TWO64
    ensures samples == [] <==> r == None
    ensures samples != [] ==>
              var maps := ParseMaps(mapsText(samples[0].pid));
              && Ascending(Keys(maps, StartOf))
              && r == Some(Tally(KeysOf(NamesOf(lib, files, maps, ParseKallsyms(kallsyms)), samples)))
  {
    if samples == [] {
      return None;
    }
    var maps := ParseMaps(mapsText(samples[0].pid));
    ParsedAscends(mapsText(samples[0].pid), kallsyms);
    var sym := new Symbolizer(maps, ParseKallsyms(kallsyms));
    var folded := FoldWith(lib, files, sym, NamesOf(lib, files, sym.mappings, sym.ksyms), samples);
    return Some(folded);
  }

  /** The counter of a key, new ones from zero. */
  method Increment(folded: map<string, u64>, key: string) returns (after: map<string, u64>)
    requires key in folded ==> folded[key] < TWO64 - 1
    ensures after == Counted(folded, Some(key))
  {
    var count: u64 := if key in folded then folded[key] else 0;
    after := folded[key := count + 1];
  }

  method FoldWith(lib: Lib, files: Files, sym: Symbolizer, ghost names: Names, samples: seq<StackEvent>)
    returns (folded: map<string, u64>)
    requires Ready(lib, files, sym, names) && |samples| < TWO64
    modifies sym`cache
    ensures Ready(lib, files, sym, names) && folded == Tally(KeysOf(names, samples))
  {
    folded := map[];
    for i := 0 to |samples|
      invariant Ready(lib, files, sym, names)
      invariant folded == Tally(KeysOf(names, samples[..i]))
    {
      TallyNext(names, samples, i);
      var ev := samples[i];
      var frames := Collect(lib, files, sym, names, ev);
      if frames == [] {
        continue;
      }
      folded := Increment(folded, Join(frames, ';'));
    }
    assert samples[..|samples|] == samples;
  }

  lemma TallyNext(names: Names, samples: seq<StackEvent>, i: nat)
    requires i < |samples|
    ensures var keys, key := KeysOf(names, samples[..i]), KeyOf(names, samples[i]);
            && Tally(KeysOf(names, samples[..i + 1])) == Counted(Tally(keys), key)
            && forall k | k in Tally(keys) :: Tally(keys)[k] <= i
  {
    var keys, key := KeysOf(names, samples[..i]), KeyOf(names, samples[i]);
    assert samples[..i + 1][..i] == samples[..i];
    assert (keys + [key])[..|keys|] == keys;
    TallyBounded(keys);
  }

  lemma NextNamed(name: u64 -> string, ips: seq<u64>, j: nat, frames: seq<string>, all: seq<string>)
    requires j < |ips| && frames + Named(name, NonZeroReversed(ips[..j + 1])) == all
    ensures ips[j] != 0 ==> frames + [name(ips[j])] + Named(name, NonZeroReversed(ips[..j])) == all
    ensures ips[j] == 0 ==> frames + Named(name, NonZeroReversed(ips[..j])) == all
  {
    assert ips[..j + 1][..j] == ips[..j];
    if ips[j] != 0 {
      assert Named(name, NonZeroReversed(ips[..j + 1])) == [name(ips[j])] + Named(name, NonZeroReversed(ips[..j]));
    }
  }

  lemma {:induction false} TallyBounded(keys: seq<Option<string>>)
    ensures forall k | k in Tally(keys) :: 0 < Tally(keys)[k] <= |keys|
  {
    if keys != [] {
      TallyBounded(keys[..|keys| - 1]);
    }
  }

  // ----- What the counts mean -----

  /** The samples with the key `k`. */
  ghost function Having(keys: seq<Option<string>>, k: Option<string>): set<int> {
    set i | 0 <= i < |keys| && keys[i] == k
  }

  lemma HavingLast(keys: seq<Option<string>>, k: Option<string>)
    requires keys != []
    ensures var n := |keys| - 1;
            |Having(keys, k)| == |Having(keys[..n], k)| + (if keys[n] == k then 1 else 0)
  {
    var n := |keys| - 1;
    if keys[n] == k {
      assert Having(keys, k) == Having(keys[..n], k) + {n};
    } else {
      assert Having(keys, k) == Having(keys[..n], k);
    }
  }

  /** A key is in the map if and only if some sample has it, and then its count
      is the number of samples that have it. */
  lemma {:induction false} TallyCounts(keys: seq<Option<string>>, k: string)
    ensures k in Tally(keys) <==> Some(k) in keys
    ensures k in Tally(keys) ==> Tally(keys)[k] == |Having(keys, Some(k))|
    ensures k !in Tally(keys) ==> Having(keys, Some(k)) == {}
  {
    if keys != [] {
      TallyCounts(keys[..|keys| - 1], k);
      HavingLast(keys, Some(k));
    }
  }

  ghost function CountsOf(m: map<string, nat>): string -> int {
    (k: string) => if k in m then m[k] else 0
  }

  ghost function HavingSome(keys: seq<Option<string>>): set<int> {
    set i | 0 <= i < |keys| && keys[i].Some?
  }

  lemma HavingSomeLast(keys: seq<Option<string>>)
    requires keys != []
    ensures var n := |keys| - 1;
            |HavingSome(keys)| == |HavingSome(keys[..n])| + (if keys[n].Some? then 1 else 0)
  {
    var n := |keys| - 1;
    if keys[n].Some? {
      assert HavingSome(keys) == HavingSome(keys[..n]) + {n};
    } else {
      assert HavingSome(keys) == HavingSome(keys[..n]);
    }
  }

  /** The counts add up to the number of samples that have a key. */
  lemma {:induction false} TallyConserves(keys: seq<Option<string>>)
    ensures Sum(Tally(keys).Keys, CountsOf(Tally(keys))) == |HavingSome(keys)|
  {
    if keys == [] {
      assert Tally(keys).Keys == {};
    } else {
      var n := |keys| - 1;
      var before, after := Tally(keys[..n]), Tally(keys);
      TallyConserves(keys[..n]);
      HavingSomeLast(keys);
      if keys[n].Some? {
        var k := keys[n].value;
        SumStep(before.Keys, k, CountsOf(before), CountsOf(after), 1);
        assert after.Keys == before.Keys + {k};
      }
    }
  }

  /** Some address in a valid prefix is not zero. */
  predicate HasFrame(ev: StackEvent) {
    || (exists j | 0 <= j < Clamp(ev.kstackLen) :: ev.kstackIps[j] != 0)
    || (exists j | 0 <= j < Clamp(ev.ustackLen) :: ev.ustackIps[j] != 0)
  }

  lemma {:induction false} AllZero(ips: seq<u64>)
    ensures NonZeroReversed(ips) == [] <==> forall j | 0 <= j < |ips| :: ips[j] == 0
  {
    if ips != [] {
      AllZero(ips[..|ips| - 1]);
    }
  }

  lemma KeyIffFrame(names: Names, ev: StackEvent)
    ensures KeyOf(names, ev) == None <==> !HasFrame(ev)
  {
    var ks, us := ev.kstackIps[..Clamp(ev.kstackLen)], ev.ustackIps[..Clamp(ev.ustackLen)];
    AllZero(ks);
    AllZero(us);
    assert forall j | 0 <= j < |ks| :: ks[j] == ev.kstackIps[j];
    assert forall j | 0 <= j < |us| :: us[j] == ev.ustackIps[j];
  }

  /** The samples that show at least one frame. */
  ghost function Framed(samples: seq<StackEvent>): set<int> {
    set i | 0 <= i < |samples| && HasFrame(samples[i])
  }

  lemma KeyedIsFramed(names: Names, samples: seq<StackEvent>)
    ensures HavingSome(KeysOf(names, samples)) == Framed(samples)
  {
    forall i | 0 <= i < |samples| ensures KeysOf(names, samples)[i].Some? <==> HasFrame(samples[i]) {
      KeyIffFrame(names, samples[i]);
    }
  }

  /** The folded counts of any sample list add up to the number of samples with
      a non-zero address in their valid prefixes. */
  lemma {:induction false} FoldConserves(names: Names, samples: seq<StackEvent>)
    ensures var m := Tally(KeysOf(names, samples));
            Sum(m.Keys, CountsOf(m)) == |Framed(samples)|
  {
    TallyConserves(KeysOf(names, samples));
    KeyedIsFramed(names, samples);
  }

  // ----- Which samples share a key -----

  /** The addresses other than zero, in the order of the array. */
  function NonZero(ips: seq<u64>): seq<u64> {
    if ips == [] then []
    else
      var rest, ip := NonZero(ips[..|ips| - 1]), ips[|ips| - 1];
      if ip != 0 then rest + [ip] else rest
  }

  function Reversed(s: seq<u64>): seq<u64> {
    if s == [] then [] else [s[|s| - 1]] + Reversed(s[..|s| - 1])
  }

  lemma {:induction false} ReversedNonZero(ips: seq<u64>)
    ensures NonZeroReversed(ips) == Reversed(NonZero(ips))
  {
    if ips != [] {
      var n := |ips| - 1;
      ReversedNonZero(ips[..n]);
      if ips[n] != 0 {
        assert NonZero(ips)[..|NonZero(ips)| - 1] == NonZero(ips[..n]);
      }
    }
  }

  /** Samples with the same non-zero addresses in their valid prefixes, wherever
      the zeros stand, land on the same key. */
  lemma SameStackSameKey(names: Names, a: StackEvent, b: StackEvent)
    requires NonZero(a.kstackIps[..Clamp(a.kstackLen)]) == NonZero(b.kstackIps[..Clamp(b.kstackLen)])
    requires NonZero(a.ustackIps[..Clamp(a.ustackLen)]) == NonZero(b.ustackIps[..Clamp(b.ustackLen)])
    ensures KeyOf(names, a) == KeyOf(names, b)
  {
    ReversedNonZero(a.kstackIps[..Clamp(a.kstackLen)]);
    ReversedNonZero(b.kstackIps[..Clamp(b.kstackLen)]);
    ReversedNonZero(a.ustackIps[..Clamp(a.ustackLen)]);
    ReversedNonZero(b.ustackIps[..Clamp(b.ustackLen)]);
  }

  /** No name of an address other than zero has the character in it. */
  ghost predicate NamesWithout(names: Names, c: char) {
    forall ip: u64 | ip != 0 :: c !in names.kernel(ip) && c !in names.user(ip)
  }

  lemma {:induction false} NoZeroLeft(ips: seq<u64>)
    ensures forall i | 0 <= i < |NonZeroReversed(ips)| :: NonZeroReversed(ips)[i] != 0
  {
    if ips != [] {
      NoZeroLeft(ips[..|ips| - 1]);
    }
  }

  lemma {:induction false} NamedWithout(name: u64 -> string, ips: seq<u64>, c: char)
    requires forall i | 0 <= i < |ips| :: c !in name(ips[i])
    ensures Without(Named(name, ips), c)
  {
    if ips != [] {
      NamedWithout(name, ips[1..], c);
    }
  }

  lemma FramesWithout(names: Names, ev: StackEvent, c: char)
    requires NamesWithout(names, c)
    ensures Without(Frames(names, ev), c)
  {
    NoZeroLeft(ev.kstackIps[..Clamp(ev.kstackLen)]);
    NoZeroLeft(ev.ustackIps[..Clamp(ev.ustackLen)]);
    NamedWithout(names.kernel, KernelIps(ev), c);
    NamedWithout(names.user, UserIps(ev), c);
  }

  /** A sample's frames as a reader sees them: cut at their semicolons. */
  function CutFrames(names: Names, ev: StackEvent): seq<string> {
    Cut(Frames(names, ev), ';')
  }

  lemma CutKey(names: Names, ev: StackEvent)
    ensures KeyOf(names, ev).Some? ==> Split(KeyOf(names, ev).value, ';') == CutFrames(names, ev) != []
    ensures KeyOf(names, ev).None? ==> CutFrames(names, ev) == []
  {
    if Frames(names, ev) != [] {
      SplitOfJoinIsCut(Frames(names, ev), ';');
    }
  }

  /** Two samples share a key if and only if their frame lists agree once every
      name is cut at its semicolons: kernel, user and mixed stacks alike. */
  lemma KeysExact(names: Names, a: StackEvent, b: StackEvent)
    ensures KeyOf(names, a) == KeyOf(names, b) <==> CutFrames(names, a) == CutFrames(names, b)
  {
    CutKey(names, a);
    CutKey(names, b);
    if Frames(names, a) != [] && Frames(names, b) != [] {
      JoinsAgreeExact(Frames(names, a), Frames(names, b), ';');
    }
  }

  /** While no name has a semicolon, keys and frame lists correspond one to one. */
  lemma KeysOneToOne(names: Names, a: StackEvent, b: StackEvent)
    requires NamesWithout(names, ';')
    ensures KeyOf(names, a) == KeyOf(names, b) <==> Frames(names, a) == Frames(names, b)
    ensures KeyOf(names, a).Some? ==> Split(KeyOf(names, a).value, ';') == Frames(names, a)
  {
    FramesWithout(names, a, ';');
    FramesWithout(names, b, ';');
    CutWithout(Frames(names, a), ';');
    CutWithout(Frames(names, b), ';');
    KeysExact(names, a, b);
    CutKey(names, a);
  }

  // ----- Where a frame stands -----

  /** How many addresses other than zero stand from position `i` up to `n`. */
  function NonZeros(ips: seq<u64>, i: nat, n: nat): nat
    requires n <= |ips|
  {
    if n <= i then 0 else NonZeros(ips, i, n - 1) + (if ips[n - 1] != 0 then 1 else 0)
  }

  lemma {:induction false} StandsAt(ips: seq<u64>, i: nat, n: nat)
    requires i < n <= |ips| && ips[i] != 0
    ensures var r, at := NonZeroReversed(ips[..n]), NonZeros(ips, i + 1, n); at < |r| && r[at] == ips[i]
  {
    assert ips[..n][..n - 1] == ips[..n - 1];
    if i < n - 1 {
      StandsAt(ips, i, n - 1);
    }
  }

  lemma {:induction false} AsManyAsNonZero(ips: seq<u64>, n: nat)
    requires n <= |ips|
    ensures |NonZeroReversed(ips[..n])| == NonZeros(ips, 0, n)
  {
    if n > 0 {
      assert ips[..n][..n - 1] == ips[..n - 1];
      AsManyAsNonZero(ips, n - 1);
    }
  }

  lemma {:induction false} NamedAt(name: u64 -> string, ips: seq<u64>, k: nat)
    requires k < |ips|
    ensures Named(name, ips)[k] == name(ips[k])
  {
    if k > 0 {
      NamedAt(name, ips[1..], k - 1);
    }
  }

  /** `fs` has the name of each address at its place, by its position in the arrays:
      kernel names first, then user names, each behind those of later positions. */
  ghost predicate InPlace(names: Names, ev: StackEvent, fs: seq<string>) {
    var ks, us, k, u := ev.kstackIps, ev.ustackIps, Clamp(ev.kstackLen), Clamp(ev.ustackLen);
    && |fs| == NonZeros(ks, 0, k) + NonZeros(us, 0, u)
    && (forall i | 0 <= i < k && ks[i] != 0 ::
          NonZeros(ks, i + 1, k) < NonZeros(ks, 0, k) && fs[NonZeros(ks, i + 1, k)] == names.kernel(ks[i]))
    && (forall i | 0 <= i < u && us[i] != 0 ::
          NonZeros(us, i + 1, u) < NonZeros(us, 0, u)
          && fs[NonZeros(ks, 0, k) + NonZeros(us, i + 1, u)] == names.user(us[i]))
  }

  lemma FramesExact(names: Names, ev: StackEvent)
    ensures InPlace(names, ev, Frames(names, ev))
  {
    var ks, us, k, u := ev.kstackIps, ev.ustackIps, Clamp(ev.kstackLen), Clamp(ev.ustackLen);
    AsManyAsNonZero(ks, k);
    AsManyAsNonZero(us, u);
    forall i | 0 <= i < k && ks[i] != 0
      ensures NonZeros(ks, i + 1, k) < NonZeros(ks, 0, k)
      ensures Named(names.kernel, KernelIps(ev))[NonZeros(ks, i + 1, k)] == names.kernel(ks[i])
    {
      StandsAt(ks, i, k);
      NamedAt(names.kernel, KernelIps(ev), NonZeros(ks, i + 1, k));
    }
    forall i | 0 <= i < u && us[i] != 0
      ensures NonZeros(us, i + 1, u) < NonZeros(us, 0, u)
      ensures Named(names.user, UserIps(ev))[NonZeros(us, i + 1, u)] == names.user(us[i])
    {
      StandsAt(us, i, u);
      NamedAt(names.user, UserIps(ev), NonZeros(us, i + 1, u));
    }
  }

  /** Of two non-zero places, the later one counts fewer behind it. */
  lemma {:induction false} LaterStandsEarlier(ips: seq<u64>, i: nat, j: nat, n: nat)
    requires i < j < n <= |ips| && ips[j] != 0
    ensures NonZeros(ips, j + 1, n) < NonZeros(ips, i + 1, n)
  {
    if j < n - 1 {
      LaterStandsEarlier(ips, i, j, n - 1);
    }
  }

  lemma {:induction false} NoZeroCounts(ips: seq<u64>, i: nat, n: nat)
    requires i <= n <= |ips| && forall j | 0 <= j < n :: ips[j] != 0
    ensures NonZeros(ips, i, n) == n - i
  {
    if i < n {
      NoZeroCounts(ips, i, n - 1);
    }
  }

  /** Without zeros a prefix is named back to front. */
  lemma PrefixReversed(name: u64 -> string, ips: seq<u64>, n: nat)
    requires n <= |ips| && forall i | 0 <= i < n :: ips[i] != 0
    ensures var fs := Named(name, NonZeroReversed(ips[..n]));
            |fs| == n && forall i | 0 <= i < n :: fs[n - 1 - i] == name(ips[i])
  {
    var rev := NonZeroReversed(ips[..n]);
    AsManyAsNonZero(ips, n);
    NoZeroCounts(ips, 0, n);
    forall i | 0 <= i < n ensures Named(name, rev)[n - 1 - i] == name(ips[i]) {
      StandsAt(ips, i, n);
      NoZeroCounts(ips, i + 1, n);
      NamedAt(name, rev, n - 1 - i);
    }
  }

  /** Without zeros in the valid prefixes the frames are the two prefixes reversed, the
      kernel's first. */
  lemma FramesReversed(names: Names, ev: StackEvent)
    requires forall i | 0 <= i < Clamp(ev.kstackLen) :: ev.kstackIps[i] != 0
    requires forall i | 0 <= i < Clamp(ev.ustackLen) :: ev.ustackIps[i] != 0
    ensures var fs, k, u := Frames(names, ev), Clamp(ev.kstackLen), Clamp(ev.ustackLen);
            && |fs| == k + u
            && (forall i | 0 <= i < k :: fs[k - 1 - i] == names.kernel(ev.kstackIps[i]))
            && (forall i | 0 <= i < u :: fs[k + u - 1 - i] == names.user(ev.ustackIps[i]))
  {
    PrefixReversed(names.kernel, ev.kstackIps, Clamp(ev.kstackLen));
    PrefixReversed(names.user, ev.ustackIps, Clamp(ev.ustackLen));
  }

  /** What a reader of the key finds: split at its semicolons, it has the name of
      each address at its place, when no name has a semicolon itself. */
  lemma KeyTellsFrames(names: Names, ev: StackEvent)
    requires NamesWithout(names, ';') && HasFrame(ev)
    ensures KeyOf(names, ev).Some? && InPlace(names, ev, Split(KeyOf(names, ev).value, ';'))
  {
    KeyIffFrame(names, ev);
    KeysOneToOne(names, ev, ev);
    FramesExact(names, ev);
  }

  const ZERO_IPS: IpArray := [0, 0, 0, 0, 0, 0, 0, 0, 0, 0, 0, 0, 0, 0, 0, 0, 0, 0, 0, 0]

  /** A sample of at most one kernel and one user frame. */
  function Sample(kernel: u64, user: u64): StackEvent {
    StackEvent(1, 0, 1, 1, 0, ZERO_IPS[0 := kernel], ZERO_IPS[0 := user])
  }

  lemma IpsOfSample(kernel: u64, user: u64)
    ensures KernelIps(Sample(kernel, user)) == if kernel != 0 then [kernel] else []
    ensures UserIps(Sample(kernel, user)) == if user != 0 then [user] else []
  {
    assert Clamp(1) == 1;
    assert Sample(kernel, user).kstackIps[..1] == [kernel] && Sample(kernel, user).ustackIps[..1] == [user];
    OneIp(kernel);
    OneIp(user);
  }

  lemma OneIp(ip: u64)
    ensures NonZeroReversed([ip]) == if ip != 0 then [ip] else []
  {
    assert [ip][..0] == [];
  }

  lemma FramesOfSample(names: Names, kernel: u64, user: u64)
    ensures Frames(names, Sample(kernel, user)) ==
            (if kernel != 0 then [names.kernel(kernel)] else []) + (if user != 0 then [names.user(user)] else [])
  {
    IpsOfSample(kernel, user);
    assert [kernel][1..] == [] && [user][1..] == [];
  }

  /** Every sample's key splits back into its frames. */
  ghost predicate ReadsBack(names: Names) {
    forall ev :: KeyOf(names, ev).Some? ==> Split(KeyOf(names, ev).value, ';') == Frames(names, ev)
  }

  /** That holds if and only if no name of an address other than zero has a
      semicolon in it. */
  lemma ReadBackExact(names: Names)
    ensures ReadsBack(names) <==> NamesWithout(names, ';')
  {
    if NamesWithout(names, ';') {
      forall ev ensures KeyOf(names, ev).Some? ==> Split(KeyOf(names, ev).value, ';') == Frames(names, ev) {
        KeysOneToOne(names, ev, ev);
      }
    } else {
      var ip: u64 :| ip != 0 && (';' in names.kernel(ip) || ';' in names.user(ip));
      var ev := if ';' in names.kernel(ip) then Sample(ip, 0) else Sample(0, ip);
      var name := if ';' in names.kernel(ip) then names.kernel(ip) else names.user(ip);
      FramesOfSample(names, ip, 0);
      FramesOfSample(names, 0, ip);
      assert Frames(names, ev) == [name] && [name][0] == name;
      JoinExact([name], ';');
    }
  }

  /** A name is printed from a symbol, a file name or hexadecimal digits. */
  ghost predicate SourcesWithout(lib: Lib, files: Files, ksyms: seq<Sym>, c: char) {
    && !IsLowerHex(c) && c !in "0x!+[k] "
    && (forall path :: c !in lib.fileName(path))
    && (forall i | 0 <= i < |ksyms| :: c !in ksyms[i].name)
    && (forall path | path in files :: RawWithout(Table(files[path]), c))
  }

  ghost predicate RawWithout(raw: seq<RawSym>, c: char) {
    forall i | 0 <= i < |raw| && raw[i].name.Some? :: c !in raw[i].name.value
  }

  ghost predicate SymsWithout(syms: seq<Sym>, c: char) {
    forall i | 0 <= i < |syms| :: c !in syms[i].name
  }

  lemma {:induction false} KeptWithout(raw: seq<RawSym>, c: char)
    requires RawWithout(raw, c)
    ensures SymsWithout(Kept(raw), c)
  {
    if raw != [] {
      KeptWithout(raw[..|raw| - 1], c);
    }
  }

  lemma {:induction false} InsertWithout(syms: seq<Sym>, s: Sym, c: char)
    requires SymsWithout(syms, c) && c !in s.name
    ensures SymsWithout(Insert(syms, s, AddrOf), c)
  {
    if syms != [] {
      InsertWithout(syms[..|syms| - 1], s, c);
    }
  }

  lemma {:induction false} SortedWithout(syms: seq<Sym>, c: char)
    requires SymsWithout(syms, c)
    ensures SymsWithout(StableSort(syms, AddrOf), c)
  {
    if syms != [] {
      SortedWithout(syms[..|syms| - 1], c);
      InsertWithout(StableSort(syms[..|syms| - 1], AddrOf), syms[|syms| - 1], c);
    }
  }

  lemma NearestWithout(search: Search, syms: seq<Sym>, x: u64, c: char)
    requires SymsWithout(syms, c) && Nearest(search, syms, x).Some?
    ensures c !in Nearest(search, syms, x).value
  {
  }

  lemma KernelWithout(lib: Lib, files: Files, ksyms: seq<Sym>, ip: u64, c: char)
    requires SourcesWithout(lib, files, ksyms, c)
    ensures c !in KernelName(lib.search, ksyms, ip)
  {
    HexDigitsOnly(ip);
    if Nearest(lib.search, ksyms, ip).Some? {
      NearestWithout(lib.search, ksyms, ip, c);
    }
    assert c !in "[k] " && c !in "[k] 0x";
  }

  lemma UserWithout(lib: Lib, files: Files, maps: seq<Mapping>, ksyms: seq<Sym>, ip: u64, c: char)
    requires ValidSearch(lib.search) && Ascending(Keys(maps, StartOf)) && SourcesWithout(lib, files, ksyms, c)
    ensures c !in Fresh(lib, maps, files, ip)
  {
    HexDigitsOnly(ip);
    assert c !in "0x" && c !in "!+0x";
    var at := PlaceOf(lib, maps, ip);
    if at.Some? {
      var path, off := at.value.path, at.value.off;
      HexDigitsOnly(off);
      LoadedWithout(files, path, c);
      if Nearest(lib.search, Loaded(files, path), off).Some? {
        NearestWithout(lib.search, Loaded(files, path), off, c);
      }
    }
  }

  lemma LoadedWithout(files: Files, path: string, c: char)
    requires path in files ==> RawWithout(Table(files[path]), c)
    ensures SymsWithout(Loaded(files, path), c)
  {
    if path in files {
      KeptWithout(Table(files[path]), c);
      SortedWithout(Kept(Table(files[path])), c);
    }
  }

  /** A character that is in no symbol and no file name, and that the formats do
      not use, is in no frame name. */
  lemma NamesFromSources(lib: Lib, files: Files, maps: seq<Mapping>, ksyms: seq<Sym>, c: char)
    requires ValidSearch(lib.search) && Ascending(Keys(maps, StartOf)) && SourcesWithout(lib, files, ksyms, c)
    ensures NamesWithout(NamesOf(lib, files, maps, ksyms), c)
  {
    forall ip: u64
      ensures c !in KernelName(lib.search, ksyms, ip) && c !in Fresh(lib, maps, files, ip)
    {
      KernelWithout(lib, files, ksyms, ip, c);
      UserWithout(lib, files, maps, ksyms, ip, c);
    }
  }

  // ----- The written file -----

  lemma {:induction false} JoinWithout(pieces: seq<string>, sep: char, c: char)
    requires c != sep
    ensures c !in Join(pieces, sep) <==> Without(pieces, c)
  {
    if |pieces| > 1 {
      var n := |pieces| - 1;
      JoinWithout(pieces[..n], sep, c);
      assert Without(pieces, c) <==> Without(pieces[..n], c) && c !in pieces[n];
    }
  }

  /** The samples that show these frames, cut at their semicolons. */
  ghost function Showing(names: Names, samples: seq<StackEvent>, fs: seq<string>): set<int> {
    set i | 0 <= i < |samples| && CutFrames(names, samples[i]) == fs
  }

  lemma KeyShows(names: Names, samples: seq<StackEvent>, key: string)
    requires Some(key) in KeysOf(names, samples)
    ensures Having(KeysOf(names, samples), Some(key)) == Showing(names, samples, Split(key, ';'))
  {
    var keys := KeysOf(names, samples);
    var j :| 0 <= j < |samples| && keys[j] == Some(key);
    CutKey(names, samples[j]);
    forall i | 0 <= i < |samples|
      ensures keys[i] == Some(key) <==> CutFrames(names, samples[i]) == Split(key, ';')
    {
      KeysExact(names, samples[i], samples[j]);
    }
    assert forall i :: i in Having(keys, Some(key)) <==> i in Showing(names, samples, Split(key, ';'));
  }

  /** No frame of any sample has a line end in it. */
  ghost predicate OneLine(names: Names, samples: seq<StackEvent>) {
    forall j | 0 <= j < |samples| :: Without(Frames(names, samples[j]), '\n')
  }

  lemma KeysOneLine(names: Names, samples: seq<StackEvent>)
    ensures OneLine(names, samples) <==> forall k | k in Tally(KeysOf(names, samples)) :: '\n' !in k
  {
    var keys := KeysOf(names, samples);
    forall k | k in Tally(keys) ensures OneLine(names, samples) ==> '\n' !in k {
      TallyCounts(keys, k);
      var j :| 0 <= j < |samples| && keys[j] == Some(k);
      JoinWithout(Frames(names, samples[j]), ';', '\n');
    }
    forall j | 0 <= j < |samples| && keys[j].Some?
      ensures keys[j].value in Tally(keys)
      ensures '\n' !in keys[j].value <==> Without(Frames(names, samples[j]), '\n')
    {
      TallyCounts(keys, keys[j].value);
      JoinWithout(Frames(names, samples[j]), ';', '\n');
    }
  }

  /** The written lines read back as the counts, in any order of the map, if and
      only if no frame of a sample has a line end in it. */
  lemma FileReadsBackExact(names: Names, samples: seq<StackEvent>, order: seq<string>)
    requires Enumerates(order, Tally(KeysOf(names, samples)))
    ensures var es := EntriesOf(order, Tally(KeysOf(names, samples)));
            Parse(Print(es)) == Some(es) <==> OneLine(names, samples)
  {
    FoldedTextExact(order, Tally(KeysOf(names, samples)));
    KeysOneLine(names, samples);
  }

  lemma CountsAreShown(names: Names, samples: seq<StackEvent>, k: string)
    requires k in Tally(KeysOf(names, samples))
    ensures Tally(KeysOf(names, samples))[k] == |Showing(names, samples, Split(k, ';'))| > 0
  {
    TallyBounded(KeysOf(names, samples));
    TallyCounts(KeysOf(names, samples), k);
    KeyShows(names, samples, k);
  }

  /** From samples to text and back: while no frame has a line end in it, the
      written lines, in any order, read back as exactly one entry for each list
      of cut frames that occurs, with the number of samples that show it. */
  lemma {:induction false} FileTellsStacks(names: Names, samples: seq<StackEvent>, order: seq<string>)
    requires OneLine(names, samples) && Enumerates(order, Tally(KeysOf(names, samples)))
    ensures Parse(Print(EntriesOf(order, Tally(KeysOf(names, samples))))).Some?
    ensures var es := Parse(Print(EntriesOf(order, Tally(KeysOf(names, samples))))).value;
            && (forall i | 0 <= i < |es| :: es[i].count == |Showing(names, samples, Split(es[i].stack, ';'))|)
            && (forall i | 0 <= i < |es| :: Showing(names, samples, Split(es[i].stack, ';')) != {})
            && (forall i, j | 0 <= i < j < |es| :: Split(es[i].stack, ';') != Split(es[j].stack, ';'))
            && (forall j | 0 <= j < |samples| && HasFrame(samples[j]) ::
                  exists i :: 0 <= i < |es| && Split(es[i].stack, ';') == CutFrames(names, samples[j]))
  {
    FileReadsBackExact(names, samples, order);
    EntriesTell(names, samples, order);
  }

  lemma EntriesTell(names: Names, samples: seq<StackEvent>, order: seq<string>)
    requires Enumerates(order, Tally(KeysOf(names, samples)))
    ensures var es := EntriesOf(order, Tally(KeysOf(names, samples)));
            && (forall i | 0 <= i < |es| :: es[i].count == |Showing(names, samples, Split(es[i].stack, ';'))|)
            && (forall i | 0 <= i < |es| :: Showing(names, samples, Split(es[i].stack, ';')) != {})
            && (forall i, j | 0 <= i < j < |es| :: Split(es[i].stack, ';') != Split(es[j].stack, ';'))
            && (forall j | 0 <= j < |samples| && HasFrame(samples[j]) ::
                  exists i :: 0 <= i < |es| && Split(es[i].stack, ';') == CutFrames(names, samples[j]))
  {
    var m := Tally(KeysOf(names, samples));
    forall i | 0 <= i < |order|
      ensures m[order[i]] == |Showing(names, samples, Split(order[i], ';'))| > 0
    {
      CountsAreShown(names, samples, order[i]);
    }
    forall i, j | 0 <= i < j < |order| ensures Split(order[i], ';') != Split(order[j], ';') {
      JoinSplit(order[i], ';');
      JoinSplit(order[j], ';');
    }
    forall j | 0 <= j < |samples| && HasFrame(samples[j])
      ensures exists i :: 0 <= i < |order| && Split(EntriesOf(order, m)[i].stack, ';') == CutFrames(names, samples[j])
    {
      var i := EntryOfSample(names, samples, order, j);
    }
  }

  lemma EntryOfSample(names: Names, samples: seq<StackEvent>, order: seq<string>, j: nat) returns (i: nat)
    requires Enumerates(order, Tally(KeysOf(names, samples))) && j < |samples| && HasFrame(samples[j])
    ensures i < |order|
    ensures Split(EntriesOf(order, Tally(KeysOf(names, samples)))[i].stack, ';') == CutFrames(names, samples[j])
  {
    KeyIffFrame(names, samples[j]);
    var k := KeyOf(names, samples[j]).value;
    assert KeysOf(names, samples)[j] == Some(k);
    TallyCounts(KeysOf(names, samples), k);
    CutKey(names, samples[j]);
    i :| 0 <= i < |order| && order[i] == k;
  }
}

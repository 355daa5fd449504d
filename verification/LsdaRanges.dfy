/** What a written data area makes of an address, in numbers: which landing pad is installed, and
    with which value. */
module LsdaRanges {
  import opened Bytes
  import opened Leb
  import opened Lsda
  import opened LsdaProof
  import opened Options
  import opened Pointers
  import opened Words

  /** The entry has a landing pad, and the byte just before ip is in its range. */
  predicate Covers(s: CallSite, ip: nat, funcStart: nat) {
    s.landingPad > 0 && funcStart + s.start < ip && ip <= funcStart + s.start + s.length
  }

  /** Neither the address nor the end of a range is beyond the word. */
  predicate NoWrap(sites: seq<CallSite>, ip: nat, funcStart: nat) {
    && funcStart < ip <= 0x1_0000_0000_0000_0000
    && forall i :: 0 <= i < |sites| ==>
      && sites[i].start + sites[i].length < 0x1_0000_0000_0000_0000
      && funcStart + sites[i].landingPad < 0x1_0000_0000_0000_0000
  }

  /** An entry has no action, or its action is one more than the place in the action table where
      its chain is written. */
  predicate HasChain(buf: seq<byte>, actions: nat, s: CallSite, chain: seq<Link>) {
    if s.action == 0 then chain == []
    else s.action < 0x8000_0000 && chain != [] && ChainWritten(buf, actions + s.action - 1, chain)
  }

  lemma CandidateInNumbers(s: CallSite, ip: nat, funcStart: nat, search: bool, foreign: bool)
    requires NoWrap([s], ip, funcStart)
    ensures Candidate(s, QueryAt(search, foreign, ip, funcStart).pc) <==> Covers(s, ip, funcStart)
    ensures ToU64(funcStart + s.landingPad) == funcStart + s.landingPad
  {
    assert [s][0] == s;
    Small(ip - 1);
    Small(ip - 1 - funcStart);
    Small(s.start + s.length);
    Small(funcStart + s.landingPad);
  }

  lemma Small(x: int)
    requires 0 <= x < TWO_64
    ensures ToU64(x) == x
  {
  }

  /** The number of the first link with a positive filter, counted from one, or none. */
  function ActionValue(chain: seq<Link>): nat {
    if FirstPositive(chain) < |chain| then FirstPositive(chain) + 1 else 0
  }

  lemma ActionInNumbers(buf: seq<byte>, actions: nat, s: CallSite, chain: seq<Link>, foreign: bool)
    requires HasChain(buf, actions, s, chain)
    ensures SiteAction(buf, actions, s, foreign) ==
      if foreign || ActionValue(chain) == 0 then NoMatch else Matched(ActionValue(chain))
  {
    hide ChainWritten, ActionAt;
    if !foreign && s.action != 0 {
      assert ToS64(s.action) == s.action;
      ChainIsSearched(buf, actions + s.action - 1, chain);
    }
  }

  /** A data area as it is written, with whatever type table, and a chain for each entry. */
  ghost predicate WrittenArea(buf: seq<byte>, lsda: nat, types: Option<(byte, nat)>, encoding: byte, sites: seq<CallSite>, chains: seq<seq<Link>>) {
    && Supported(encoding) && |EncodeTable(encoding, sites)| < TWO_31
    && (types.Some? ==> types.value.0 != OMIT && types.value.1 < TWO_64)
    && (forall s :: s in sites ==> Words64(s) && SiteInRange(encoding, s))
    && Written(buf, lsda, EncodeLsda(types, encoding, EncodeTable(encoding, sites)))
    && |chains| == |sites|
    && forall i :: 0 <= i < |sites| ==>
      HasChain(buf, lsda + |EncodeLsda(types, encoding, EncodeTable(encoding, sites))|, sites[i], chains[i])
  }

  /** What the scan of the entries comes to. */
  lemma {:induction false} ScanInNumbers(buf: seq<byte>, sites: seq<CallSite>, chains: seq<seq<Link>>, actions: nat,
                                         search: bool, foreign: bool, ip: nat, funcStart: nat)
    requires NoWrap(sites, ip, funcStart) && |chains| == |sites|
    requires forall i :: 0 <= i < |sites| ==> HasChain(buf, actions, sites[i], chains[i])
    ensures ScanSites(buf, sites, actions, QueryAt(search, foreign, ip, funcStart)) == InNumbers(sites, chains, search, foreign, ip, funcStart)
    decreases |sites|
  {
    hide Candidate, Covers, SiteAction, HasChain, ActionValue, ToU64, QueryAt;
    if sites != [] {
      var s := sites[0];
      CandidateInNumbers(s, ip, funcStart, search, foreign) by { assert forall i :: 0 <= i < |[s]| ==> [s][i] == sites[0]; }
      ActionInNumbers(buf, actions, s, chains[0], foreign);
      assert forall i :: 0 <= i < |sites| - 1 ==> sites[1..][i] == sites[i + 1] && chains[1..][i] == chains[i + 1];
      ScanInNumbers(buf, sites[1..], chains[1..], actions, search, foreign, ip, funcStart);
      QueryIs(search, foreign, ip, funcStart);
    }
  }

  lemma QueryIs(search: bool, foreign: bool, ip: nat, funcStart: nat)
    ensures var q := QueryAt(search, foreign, ip, funcStart);
      q.search == search && q.foreign == foreign && q.funcStart == funcStart
  {
  }

  function InNumbers(sites: seq<CallSite>, chains: seq<seq<Link>>, search: bool, foreign: bool, ip: nat, funcStart: nat): Outcome
    requires |chains| == |sites|
  {
    if sites == [] then ContinueUnwind
    else if !Covers(sites[0], ip, funcStart) then InNumbers(sites[1..], chains[1..], search, foreign, ip, funcStart)
    else if !search then Install(funcStart + sites[0].landingPad, if foreign then 0 else ActionValue(chains[0]))
    else if !foreign && ActionValue(chains[0]) > 0 then HandlerFound
    else InNumbers(sites[1..], chains[1..], search, foreign, ip, funcStart)
  }

  lemma AreaInNumbers(buf: seq<byte>, lsda: nat, types: Option<(byte, nat)>, encoding: byte, sites: seq<CallSite>,
                      chains: seq<seq<Link>>, search: bool, foreign: bool, ip: nat, funcStart: nat)
    requires WrittenArea(buf, lsda, types, encoding, sites, chains) && NoWrap(sites, ip, funcStart)
    ensures LsdaOutcome(buf, lsda, QueryAt(search, foreign, ip, funcStart)) == InNumbers(sites, chains, search, foreign, ip, funcStart)
  {
    hide LsdaOutcome, ScanSites, EncodeLsda, EncodeTable, Written, HasChain, QueryAt, Words64, SiteInRange;
    LsdaMeansList(buf, lsda, types, encoding, sites, QueryAt(search, foreign, ip, funcStart));
    ScanInNumbers(buf, sites, chains, lsda + |EncodeLsda(types, encoding, EncodeTable(encoding, sites))|, search, foreign, ip, funcStart);
  }

  /** Cleanup: ip is the address behind a call. When the byte before it is in the range of the k-th
      entry, which has a landing pad, and of no earlier such entry, that pad is installed, with the
      number of the first positive filter of its chain, or zero if it has none or the exception is
      foreign. When it is in no such range, unwinding goes on. */
  lemma CleanupByAddress(buf: seq<byte>, lsda: nat, types: Option<(byte, nat)>, encoding: byte, sites: seq<CallSite>,
                         chains: seq<seq<Link>>, foreign: bool, ip: nat, funcStart: nat, k: nat)
    requires WrittenArea(buf, lsda, types, encoding, sites, chains) && NoWrap(sites, ip, funcStart) && k <= |sites|
    requires forall j :: 0 <= j < k ==>
      sites[j].landingPad == 0 || ip <= funcStart + sites[j].start || funcStart + sites[j].start + sites[j].length < ip
    requires k < |sites| ==>
      sites[k].landingPad > 0 && funcStart + sites[k].start < ip <= funcStart + sites[k].start + sites[k].length
    ensures |chains| == |sites|
    ensures LsdaOutcome(buf, lsda, QueryAt(false, foreign, ip, funcStart)) ==
      if k == |sites| then ContinueUnwind
      else Install(funcStart + sites[k].landingPad,
                   if !foreign && FirstPositive(chains[k]) < |chains[k]| then FirstPositive(chains[k]) + 1 else 0)
  {
    hide WrittenArea, NoWrap, LsdaOutcome, QueryAt, InNumbers;
    AreaSizes(buf, lsda, types, encoding, sites, chains);
    AreaInNumbers(buf, lsda, types, encoding, sites, chains, false, foreign, ip, funcStart);
    if k < |sites| {
      FirstCovers(sites, chains, foreign, ip, funcStart, k);
    } else {
      NoneCovers(sites, chains, false, foreign, ip, funcStart);
    }
  }

  lemma AreaSizes(buf: seq<byte>, lsda: nat, types: Option<(byte, nat)>, encoding: byte, sites: seq<CallSite>, chains: seq<seq<Link>>)
    requires WrittenArea(buf, lsda, types, encoding, sites, chains)
    ensures |chains| == |sites|
  {
  }

  lemma {:induction false} FirstCovers(sites: seq<CallSite>, chains: seq<seq<Link>>, foreign: bool, ip: nat, funcStart: nat, k: nat)
    requires |chains| == |sites| && k < |sites| && Covers(sites[k], ip, funcStart)
    requires forall j :: 0 <= j < k ==> !Covers(sites[j], ip, funcStart)
    ensures InNumbers(sites, chains, false, foreign, ip, funcStart) ==
      Install(funcStart + sites[k].landingPad, if foreign then 0 else ActionValue(chains[k]))
    decreases k
  {
    hide Covers, ActionValue;
    if k > 0 {
      assert forall j :: 0 <= j < |sites| - 1 ==> sites[1..][j] == sites[j + 1] && chains[1..][j] == chains[j + 1];
      FirstCovers(sites[1..], chains[1..], foreign, ip, funcStart, k - 1);
    }
  }

  lemma {:induction false} NoneCovers(sites: seq<CallSite>, chains: seq<seq<Link>>, search: bool, foreign: bool, ip: nat, funcStart: nat)
    requires |chains| == |sites| && forall j :: 0 <= j < |sites| ==> !Covers(sites[j], ip, funcStart)
    ensures InNumbers(sites, chains, search, foreign, ip, funcStart) == ContinueUnwind
    decreases |sites|
  {
    hide Covers, ActionValue;
    if sites != [] {
      NoneCovers(sites[1..], chains[1..], search, foreign, ip, funcStart);
    }
  }

  lemma {:induction false} SearchInNumbers(sites: seq<CallSite>, chains: seq<seq<Link>>, foreign: bool, ip: nat, funcStart: nat)
    requires |chains| == |sites|
    ensures InNumbers(sites, chains, true, foreign, ip, funcStart) ==
      if !foreign && exists k :: 0 <= k < |sites| && Covers(sites[k], ip, funcStart) && ActionValue(chains[k]) > 0 then HandlerFound else ContinueUnwind
    decreases |sites|
  {
    hide Covers, ActionValue;
    if sites != [] {
      SearchInNumbers(sites[1..], chains[1..], foreign, ip, funcStart);
      assert forall j :: 0 <= j < |sites| - 1 ==> sites[1..][j] == sites[j + 1] && chains[1..][j] == chains[j + 1];
      if k :| 0 < k < |sites| && Covers(sites[k], ip, funcStart) && ActionValue(chains[k]) > 0 {
        assert sites[1..][k - 1] == sites[k];
      }
    }
  }

  /** Search: a handler is found if and only if the exception is not foreign and the byte before ip
      is in the range of an entry with a landing pad whose chain has a positive filter; any other
      scan comes to the end of the table. */
  lemma SearchByAddress(buf: seq<byte>, lsda: nat, types: Option<(byte, nat)>, encoding: byte, sites: seq<CallSite>,
                        chains: seq<seq<Link>>, foreign: bool, ip: nat, funcStart: nat)
    requires WrittenArea(buf, lsda, types, encoding, sites, chains) && NoWrap(sites, ip, funcStart)
    ensures |chains| == |sites|
    ensures LsdaOutcome(buf, lsda, QueryAt(true, foreign, ip, funcStart)) == HandlerFound <==>
      !foreign && exists k ::
        && 0 <= k < |sites| && sites[k].landingPad > 0
        && funcStart + sites[k].start < ip <= funcStart + sites[k].start + sites[k].length
        && exists l :: l in chains[k] && l.filter > 0
    ensures LsdaOutcome(buf, lsda, QueryAt(true, foreign, ip, funcStart)) in {HandlerFound, ContinueUnwind}
  {
    hide WrittenArea, NoWrap, LsdaOutcome, QueryAt, InNumbers, ActionValue;
    AreaSizes(buf, lsda, types, encoding, sites, chains);
    AreaInNumbers(buf, lsda, types, encoding, sites, chains, true, foreign, ip, funcStart);
    SearchInNumbers(sites, chains, foreign, ip, funcStart);
    forall k | 0 <= k < |sites| ensures ActionValue(chains[k]) > 0 <==> exists l :: l in chains[k] && l.filter > 0 {
      PositiveIn(chains[k]);
    }
  }

  lemma PositiveIn(chain: seq<Link>)
    ensures ActionValue(chain) > 0 <==> exists l :: l in chain && l.filter > 0
  {
    var k := FirstPositive(chain);
    if k < |chain| {
      assert chain[k] in chain;
    }
  }

  // ----- one entry

  /** A data area with one entry, for the ten bytes from 20 on, and behind it a chain of one link. */
  const AREA: seq<byte> := [0xff, 0xff, 0x01, 0x04, 20, 10, 7, 1, 1, 0]
  const ENTRY := CallSite(20, 10, 7, 1)

  lemma AreaIsWritten()
    ensures WrittenArea([0] + AREA, 1, None, ULEB128, [ENTRY], [[Link(1, 0)]])
  {
    forall v: nat | v < 128 ensures EncodeU(v) == [v] {}
    assert EncodeSite(ULEB128, ENTRY) == [20, 10, 7, 1];
    assert [ENTRY][1..] == [];
    assert EncodeTable(ULEB128, [ENTRY]) == [20, 10, 7, 1] + [] == [20, 10, 7, 1];
    assert EncodeU(4) == [4];
    var data := EncodeLsda(None, ULEB128, [20, 10, 7, 1]);
    assert data == AREA[..8];
    assert ([0] + AREA)[1..9] == data;
    assert EncodeS(1) + EncodeS(0) == [1, 0] == ([0] + AREA)[9..11];
  }

  /** A call that returns to ip from one of the bytes 20 to 29 of the function lands at 7, with action
      1; a call from anywhere else in the function goes on unwinding. */
  lemma EntryAtTwenty(funcStart: nat, ip: nat)
    requires funcStart < ip && funcStart + 100 < 0x1_0000_0000_0000_0000 && ip < 0x1_0000_0000_0000_0000
    ensures var inside := funcStart + 21 <= ip <= funcStart + 30;
      && LsdaOutcome([0] + AREA, 1, QueryAt(false, false, ip, funcStart)) == (if inside then Install(funcStart + 7, 1) else ContinueUnwind)
      && LsdaOutcome([0] + AREA, 1, QueryAt(true, false, ip, funcStart)) == (if inside then HandlerFound else ContinueUnwind)
  {
    hide WrittenArea, LsdaOutcome, QueryAt;
    AreaIsWritten();
    var chain := [Link(1, 0)];
    assert chain[0] in chain;
    var inside := funcStart + 21 <= ip <= funcStart + 30;
    CleanupByAddress([0] + AREA, 1, None, ULEB128, [ENTRY], [chain], false, ip, funcStart, if inside then 0 else 1);
    SearchByAddress([0] + AREA, 1, None, ULEB128, [ENTRY], [chain], false, ip, funcStart);
    if inside {
      assert [ENTRY][0] == ENTRY && [chain][0] == chain;
    }
  }
}

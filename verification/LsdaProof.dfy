/** What the tables mean: chains, tables written and read back, and the two phases. */
module LsdaProof {
  import opened Bytes
  import opened Leb
  import opened LebProof
  import opened Lsda
  import opened Options
  import opened Pointers
  import opened Words

  // ----- action chains

  datatype Link = Link(filter: nat, displacement: int)

  /** The chain is in the buffer, each link at the place its predecessor points to, the last one
      with displacement zero; its numbers are in the decoder's range. */
  predicate ChainWritten(buf: seq<byte>, pos: int, chain: seq<Link>)
    decreases |chain|
  {
    && chain != [] && pos >= 0
    && var l := chain[0];
    && l.filter < TWO_31 && -0x800_0000 <= l.displacement < TWO_31
    && Written(buf, pos, EncodeS(l.filter) + EncodeS(l.displacement))
    && (l.displacement == 0 <==> |chain| == 1)
    && (|chain| > 1 ==> ChainWritten(buf, pos + |EncodeS(l.filter)| + l.displacement, chain[1..]))
  }

  function FirstPositive(chain: seq<Link>): (k: nat)
    ensures k <= |chain|
    ensures k < |chain| ==> chain[k].filter > 0
    ensures forall j :: 0 <= j < k ==> chain[j].filter == 0
  {
    if chain == [] || chain[0].filter > 0 then 0 else 1 + FirstPositive(chain[1..])
  }

  lemma LinkReads(buf: seq<byte>, pos: nat, l: Link)
    requires l.filter < TWO_31 && -0x800_0000 <= l.displacement < TWO_31
    requires Written(buf, pos, EncodeS(l.filter) + EncodeS(l.displacement))
    ensures LinkAt(buf, pos) == GoodLink(l.filter, l.displacement, pos + |EncodeS(l.filter)|)
  {
    hide Sleb, EncodeS;
    var a, b := EncodeS(l.filter), EncodeS(l.displacement);
    WrittenParts(buf, pos, a, b);
    SignedRoundTrip(buf, pos, l.filter);
    SignedRoundTrip(buf, pos + |a|, l.displacement);
  }

  lemma WrittenParts(buf: seq<byte>, p: nat, a: seq<byte>, b: seq<byte>)
    requires Written(buf, p, a + b)
    ensures Written(buf, p, a) && Written(buf, p + |a|, b)
  {
    assert buf[p..p + |a|] == (a + b)[..|a|];
    assert buf[p + |a|..p + |a| + |b|] == (a + b)[|a|..];
  }

  lemma {:induction false} WalkIsSearch(buf: seq<byte>, pos: int, chain: seq<Link>, i: nat)
    requires ChainWritten(buf, pos, chain)
    ensures var k := FirstPositive(chain);
      Walk(buf, pos, i, |chain|) == if k < |chain| then Matched(i + k + 1) else NoMatch
    decreases |chain|
  {
    hide LinkAt, EncodeS;
    LinkReads(buf, pos, chain[0]);
    if chain[0].filter == 0 && |chain| > 1 {
      WalkIsSearch(buf, pos + |EncodeS(chain[0].filter)| + chain[0].displacement, chain[1..], i + 1);
    } else if chain[0].filter == 0 {
      assert FirstPositive(chain[1..]) == 0;
    }
  }

  /** The byte walk finds the first positive filter, counting from one, and fails exactly when
      every filter is zero. */
  lemma ChainIsSearched(buf: seq<byte>, pos: int, chain: seq<Link>)
    requires ChainWritten(buf, pos, chain)
    ensures var k := FirstPositive(chain);
      ActionAt(buf, pos) == if k < |chain| then Matched(k + 1) else NoMatch
    ensures ActionAt(buf, pos) == NoMatch <==> forall l :: l in chain ==> l.filter == 0
  {
    WalkIsSearch(buf, pos, chain, 0);
    ActionIs(buf, pos, |chain|);
    var k := FirstPositive(chain);
    if k < |chain| {
      assert chain[k] in chain;
    }
  }

  // ----- tables

  function EncodeSite(encoding: byte, s: CallSite): seq<byte>
    requires Supported(encoding)
  {
    EncodePtr(encoding, s.start) + (EncodePtr(encoding, s.length) + (EncodePtr(encoding, s.landingPad) + EncodeU(s.action)))
  }

  function EncodeTable(encoding: byte, sites: seq<CallSite>): seq<byte>
    requires Supported(encoding)
  {
    if sites == [] then [] else EncodeSite(encoding, sites[0]) + EncodeTable(encoding, sites[1..])
  }

  predicate Words64(s: CallSite) {
    s.start < TWO_64 && s.length < TWO_64 && s.landingPad < TWO_64 && s.action < TWO_64
  }

  predicate SiteInRange(encoding: byte, s: CallSite) {
    && InRange(encoding, s.start) && InRange(encoding, s.length) && InRange(encoding, s.landingPad)
    && InRange(ULEB128, s.action)
  }

  lemma SiteRoundTrip(buf: seq<byte>, p: nat, encoding: byte, s: CallSite)
    requires Supported(encoding) && Words64(s) && Written(buf, p, EncodeSite(encoding, s))
    ensures var r := ReadSite(buf, p, encoding);
      r.Site? && r.next == p + |EncodeSite(encoding, s)| && (r.site == s <==> SiteInRange(encoding, s))
  {
    hide EncodedPtr, EncodePtr, EncodeU, Uleb, Written, InRange, Supported;
    var a, b, c, d := EncodePtr(encoding, s.start), EncodePtr(encoding, s.length), EncodePtr(encoding, s.landingPad), EncodeU(s.action);
    WrittenParts(buf, p, a, b + (c + d));
    WrittenParts(buf, p + |a|, b, c + d);
    WrittenParts(buf, p + |a| + |b|, c, d);
    PointerRoundTrip(buf, p, encoding, s.start);
    PointerRoundTrip(buf, p + |a|, encoding, s.length);
    PointerRoundTrip(buf, p + |a| + |b|, encoding, s.landingPad);
    UnsignedRoundTrip(buf, p + |a| + |b| + |c|, s.action);
    UlebRange(s.action);
  }

  lemma UlebRange(v: nat)
    ensures InRange(ULEB128, v) <==> v < TWO_31 || v >= TWO_64 - 8
  {
  }

  datatype TableRead = BadTable | Sites(sites: seq<CallSite>, cursor: nat)

  /** The entries met by the decode loop, and where it stops. */
  function Table(buf: seq<byte>, p: nat, end: nat, encoding: byte): TableRead
    decreases |buf| - p
  {
    if p >= end then Sites([], p)
    else
      match ReadSite(buf, p, encoding)
      case Site(site, next) =>
        (match Table(buf, next, end, encoding)
         case Sites(sites, cursor) => Sites([site] + sites, cursor)
         case BadTable => BadTable)
      case _ => BadTable
  }

  /** A written table is read to its exact end, and as the same list exactly when every number
      is in the range of its encoding. */
  lemma {:induction false} TableRoundTrip(buf: seq<byte>, p: nat, encoding: byte, sites: seq<CallSite>)
    requires Supported(encoding) && Written(buf, p, EncodeTable(encoding, sites))
    requires forall s :: s in sites ==> Words64(s)
    ensures var r, end := Table(buf, p, p + |EncodeTable(encoding, sites)|, encoding), p + |EncodeTable(encoding, sites)|;
      && r.Sites? && r.cursor == end
      && (r.sites == sites <==> forall s :: s in sites ==> SiteInRange(encoding, s))
    decreases |sites|
  {
    hide EncodeSite, ReadSite, SiteInRange, Written, Words64;
    if sites != [] {
      var s, rest := sites[0], sites[1..];
      var a, b := EncodeSite(encoding, s), EncodeTable(encoding, rest);
      WrittenParts(buf, p, a, b);
      assert s in sites && forall x :: x in sites <==> x == s || x in rest;
      SiteRoundTrip(buf, p, encoding, s);
      TableRoundTrip(buf, p + |a|, encoding, rest);
      var r := ReadSite(buf, p, encoding);
      var t := Table(buf, p + |a|, p + |a| + |b|, encoding);
      assert sites == [s] + rest;
      assert [r.site] + t.sites == sites <==> r.site == s && t.sites == rest by {
        if [r.site] + t.sites == [s] + rest {
          assert ([r.site] + t.sites)[0] == ([s] + rest)[0];
          assert ([r.site] + t.sites)[1..] == ([s] + rest)[1..];
        }
      }
    }
  }

  // ----- the two phases

  /** The scan of a list of entries. */
  ghost function ScanSites(buf: seq<byte>, sites: seq<CallSite>, actions: nat, q: Query): Outcome {
    if sites == [] then ContinueUnwind
    else if !Candidate(sites[0], q.pc) then ScanSites(buf, sites[1..], actions, q)
    else
      match SiteAction(buf, actions, sites[0], q.foreign)
      case Endless => Hangs
      case ActionFault => Crashed
      case ActionAborted => Aborts
      case Matched(v) => if q.search then HandlerFound else Install(ToU64(q.funcStart + sites[0].landingPad), v)
      case NoMatch =>
        if q.search then ScanSites(buf, sites[1..], actions, q)
        else Install(ToU64(q.funcStart + sites[0].landingPad), 0)
  }

  /** Scanning the bytes is scanning the list they hold. */
  lemma {:induction false} ScanIsListScan(buf: seq<byte>, p: nat, end: nat, encoding: byte, actions: nat, q: Query)
    requires Table(buf, p, end, encoding).Sites?
    ensures ScanTable(buf, p, end, encoding, actions, q) == ScanSites(buf, Table(buf, p, end, encoding).sites, actions, q)
    decreases |buf| - p
  {
    hide ReadSite, Candidate, SiteAction;
    if p < end {
      var r := ReadSite(buf, p, encoding);
      ScanIsListScan(buf, r.next, end, encoding, actions, q);
      var rest := Table(buf, r.next, end, encoding).sites;
      assert ([r.site] + rest)[1..] == rest;
    }
  }

  /** The k-th entry is the first with a landing pad whose range holds the pc. */
  ghost predicate IsFirst(sites: seq<CallSite>, pc: nat, k: nat) {
    k < |sites| && Candidate(sites[k], pc) && forall j :: 0 <= j < k ==> !Candidate(sites[j], pc)
  }

  /** The cleanup phase installs the landing pad of the first such entry, with the value of its
      action, or zero when that has no match. */
  lemma {:induction false} CleanupTakesFirst(buf: seq<byte>, sites: seq<CallSite>, actions: nat, q: Query, k: nat)
    requires !q.search && IsFirst(sites, q.pc, k)
    ensures var a := SiteAction(buf, actions, sites[k], q.foreign);
      var pad := ToU64(q.funcStart + sites[k].landingPad);
      && (a == NoMatch ==> ScanSites(buf, sites, actions, q) == Install(pad, 0))
      && (a.Matched? ==> ScanSites(buf, sites, actions, q) == Install(pad, a.value))
    decreases |sites|
  {
    hide Candidate, SiteAction;
    if k > 0 {
      assert !Candidate(sites[0], q.pc);
      assert forall j :: 0 <= j < k - 1 ==> sites[1..][j] == sites[j + 1];
      CleanupTakesFirst(buf, sites[1..], actions, q, k - 1);
    }
  }

  /** The search phase finds a handler exactly when some entry with a landing pad holds the pc
      and matches, and those before it that hold the pc have actions without a match. */
  lemma {:induction false} SearchFindsMatch(buf: seq<byte>, sites: seq<CallSite>, actions: nat, q: Query) returns (k: nat)
    requires q.search
    ensures ScanSites(buf, sites, actions, q) == HandlerFound <==> k < |sites|
    ensures k < |sites| ==> Candidate(sites[k], q.pc) && SiteAction(buf, actions, sites[k], q.foreign).Matched?
    ensures k < |sites| ==> forall j :: 0 <= j < k && Candidate(sites[j], q.pc) ==> SiteAction(buf, actions, sites[j], q.foreign) == NoMatch
    decreases |sites|
  {
    hide Candidate, SiteAction;
    if sites == [] {
      k := 0;
    } else if Candidate(sites[0], q.pc) && SiteAction(buf, actions, sites[0], q.foreign) != NoMatch {
      k := if SiteAction(buf, actions, sites[0], q.foreign).Matched? then 0 else |sites|;
    } else {
      var rest := sites[1..];
      k := SearchFindsMatch(buf, rest, actions, q);
      k := k + 1;
      if k < |sites| {
        assert sites[k] == rest[k - 1];
        forall j | 0 <= j < k && Candidate(sites[j], q.pc) ensures SiteAction(buf, actions, sites[j], q.foreign) == NoMatch {
          if j > 0 { assert sites[j] == rest[j - 1]; }
        }
      }
    }
  }

  /** The ranges of entries, as the code computes their ends, do not meet. */
  ghost predicate Disjoint(sites: seq<CallSite>) {
    forall i, j, pc :: 0 <= i < j < |sites| ==> !(Contains(sites[i], pc) && Contains(sites[j], pc))
  }

  lemma {:induction false} WalkCounts(buf: seq<byte>, pos: int, i: nat, links: nat)
    ensures Walk(buf, pos, i, links).Matched? ==> Walk(buf, pos, i, links).value > i
    decreases links
  {
    hide LinkAt;
    if links > 0 {
      match LinkAt(buf, pos) {
        case GoodLink(filter, displacement, here) =>
          if filter == 0 && displacement != 0 {
            WalkCounts(buf, here + displacement, i + 1, links - 1);
          }
        case _ =>
      }
    }
  }

  /** A match has a positive value. */
  lemma MatchIsPositive(buf: seq<byte>, actions: nat, site: CallSite, foreign: bool)
    requires SiteAction(buf, actions, site, foreign).Matched?
    ensures SiteAction(buf, actions, site, foreign).value > 0 && !foreign
  {
    var pos := actions + ToS64(site.action) - 1;
    var n := WalkEnds(buf, pos);
    WalkCounts(buf, pos, 0, n);
  }

  /** When the search finds a handler, it does so at an entry k; cleanup then installs that same
      entry, with the action value found, exactly when no earlier entry with a landing pad also
      holds the pc. */
  lemma PhasesAgree(buf: seq<byte>, sites: seq<CallSite>, actions: nat, pc: nat, funcStart: nat, foreign: bool) returns (k: nat)
    requires ScanSites(buf, sites, actions, Query(true, foreign, pc, funcStart)) == HandlerFound
    ensures k < |sites| && Candidate(sites[k], pc) && SiteAction(buf, actions, sites[k], foreign).Matched?
    ensures forall j :: 0 <= j < k && Candidate(sites[j], pc) ==> SiteAction(buf, actions, sites[j], foreign) == NoMatch
    ensures var v := SiteAction(buf, actions, sites[k], foreign).value;
      var cleanup := ScanSites(buf, sites, actions, Query(false, foreign, pc, funcStart));
      && v > 0
      && (IsFirst(sites, pc, k) ==> cleanup == Install(ToU64(funcStart + sites[k].landingPad), v))
      && (!IsFirst(sites, pc, k) ==> cleanup.Install? && cleanup.value == 0)
  {
    hide Candidate, SiteAction, ScanSites;
    k := SearchFindsMatch(buf, sites, actions, Query(true, foreign, pc, funcStart));
    MatchIsPositive(buf, actions, sites[k], foreign);
    var f := FirstCandidate(sites, pc, k);
    CleanupTakesFirst(buf, sites, actions, Query(false, foreign, pc, funcStart), f);
    if IsFirst(sites, pc, k) {
      assert f == k;
    }
  }

  lemma {:induction false} FirstCandidate(sites: seq<CallSite>, pc: nat, k: nat) returns (f: nat)
    requires k < |sites| && Candidate(sites[k], pc)
    ensures f <= k && IsFirst(sites, pc, f)
  {
    hide Candidate;
    f := 0;
    while !Candidate(sites[f], pc)
      invariant f <= k && forall j :: 0 <= j < f ==> !Candidate(sites[j], pc)
      decreases k - f
    {
      f := f + 1;
    }
  }

  /** The entries of a table as far as they can be read. */
  function ReadableSites(buf: seq<byte>, p: nat, end: nat, encoding: byte): seq<CallSite>
    decreases |buf| - p
  {
    if p >= end then []
    else
      match ReadSite(buf, p, encoding)
      case Site(site, next) => [site] + ReadableSites(buf, next, end, encoding)
      case _ => []
  }

  /** Where the table goes bad matters only to a scan that comes there. */
  lemma {:induction false} ScanOfReadable(buf: seq<byte>, p: nat, end: nat, encoding: byte, actions: nat, q: Query)
    ensures var table, list := ScanTable(buf, p, end, encoding, actions, q), ScanSites(buf, ReadableSites(buf, p, end, encoding), actions, q);
      table == list || (list == ContinueUnwind && (table == Crashed || table == Aborts))
    decreases |buf| - p
  {
    hide ReadSite, Candidate, SiteAction;
    if p < end {
      match ReadSite(buf, p, encoding) {
        case Site(site, next) =>
          ScanOfReadable(buf, next, end, encoding, actions, q);
          var rest := ReadableSites(buf, next, end, encoding);
          assert ([site] + rest)[1..] == rest;
        case _ =>
      }
    }
  }

  function LsdaSites(buf: seq<byte>, lsda: nat): seq<CallSite>
    requires ReadHeader(buf, lsda).Header?
  {
    var h := ReadHeader(buf, lsda);
    ReadableSites(buf, h.table, h.end, h.encoding)
  }

  /** The same of the bytes of any data area: search stops at the first candidate whose action is
      not without a match, and cleanup installs that same entry exactly when no earlier entry with
      a landing pad holds the pc. The table may go bad behind it. */
  lemma LsdaPhasesAgree(buf: seq<byte>, lsda: nat, foreign: bool, pc: nat, funcStart: nat) returns (k: nat)
    requires LsdaOutcome(buf, lsda, Query(true, foreign, pc, funcStart)) == HandlerFound
    ensures ReadHeader(buf, lsda).Header?
    ensures var sites, actions := LsdaSites(buf, lsda), ReadHeader(buf, lsda).end;
      && k < |sites| && Candidate(sites[k], pc) && SiteAction(buf, actions, sites[k], foreign).Matched?
      && (forall j :: 0 <= j < k && Candidate(sites[j], pc) ==> SiteAction(buf, actions, sites[j], foreign) == NoMatch)
      && var v := SiteAction(buf, actions, sites[k], foreign).value;
      var cleanup := LsdaOutcome(buf, lsda, Query(false, foreign, pc, funcStart));
      && v > 0
      && (IsFirst(sites, pc, k) ==> cleanup == Install(ToU64(funcStart + sites[k].landingPad), v))
      && (!IsFirst(sites, pc, k) ==> cleanup.Install? && cleanup.value == 0)
  {
    hide ReadableSites, SiteAction, ScanSites, ScanTable, ReadHeader, Contains, Candidate, IsFirst;
    var h := ReadHeader(buf, lsda);
    ScanOfReadable(buf, h.table, h.end, h.encoding, h.end, Query(true, foreign, pc, funcStart));
    ScanOfReadable(buf, h.table, h.end, h.encoding, h.end, Query(false, foreign, pc, funcStart));
    k := PhasesAgree(buf, LsdaSites(buf, lsda), h.end, pc, funcStart, foreign);
  }

  /** So with disjoint ranges the phases always agree. */
  lemma DisjointPhasesAgree(buf: seq<byte>, lsda: nat, foreign: bool, pc: nat, funcStart: nat) returns (k: nat)
    requires ReadHeader(buf, lsda).Header? && Disjoint(LsdaSites(buf, lsda))
    requires LsdaOutcome(buf, lsda, Query(true, foreign, pc, funcStart)) == HandlerFound
    ensures var sites, actions := LsdaSites(buf, lsda), ReadHeader(buf, lsda).end;
      && k < |sites| && Candidate(sites[k], pc) && SiteAction(buf, actions, sites[k], foreign).Matched?
      && SiteAction(buf, actions, sites[k], foreign).value > 0
      && LsdaOutcome(buf, lsda, Query(false, foreign, pc, funcStart))
         == Install(ToU64(funcStart + sites[k].landingPad), SiteAction(buf, actions, sites[k], foreign).value)
  {
    hide SiteAction, ReadHeader, Contains, LsdaOutcome, LsdaSites;
    k := LsdaPhasesAgree(buf, lsda, foreign, pc, funcStart);
    assert IsFirst(LsdaSites(buf, lsda), pc, k);
  }

  /** A foreign exception finds no handler, whatever the bytes are. */
  lemma {:induction false} ForeignScan(buf: seq<byte>, p: nat, end: nat, encoding: byte, actions: nat, q: Query)
    requires q.foreign && q.search
    ensures ScanTable(buf, p, end, encoding, actions, q) != HandlerFound
    decreases |buf| - p
  {
    hide ReadSite, Candidate;
    if p < end {
      match ReadSite(buf, p, encoding) {
        case Site(site, next) => ForeignScan(buf, next, end, encoding, actions, q);
        case _ =>
      }
    }
  }

  lemma ForeignNeverCaught(buf: seq<byte>, lsda: nat, pc: nat, funcStart: nat)
    ensures LsdaOutcome(buf, lsda, Query(true, true, pc, funcStart)) != HandlerFound
  {
    hide ScanTable, ReadHeader;
    match ReadHeader(buf, lsda) {
      case Header(encoding, table, end) => ForeignScan(buf, table, end, encoding, end, Query(true, true, pc, funcStart));
      case _ =>
    }
  }

  // ----- a whole data area

  /** As an assembler lays it out: no landing-pad base, perhaps a type table, and the call sites. */
  function EncodeLsda(types: Option<(byte, nat)>, encoding: byte, table: seq<byte>): seq<byte>
    requires types.Some? ==> types.value.0 != OMIT
  {
    [OMIT] + (TypeBytes(types) + ([encoding] + (EncodeU(|table|) + table)))
  }

  lemma SiteTableReads(buf: seq<byte>, p: nat, encoding: byte, table: seq<byte>)
    requires |table| < TWO_31 && Written(buf, p, [encoding] + (EncodeU(|table|) + table))
    ensures var start := p + 1 + |EncodeU(|table|)|;
      SiteTable(buf, p) == Header(encoding, start, start + |table|) && Written(buf, start, table)
  {
    hide Uleb, EncodeU, Written;
    var n := EncodeU(|table|);
    WrittenParts(buf, p, [encoding], n + table);
    WrittenParts(buf, p + 1, n, table);
    OneByte(buf, p, encoding);
    UnsignedRoundTrip(buf, p + 1, |table|);
  }

  function TypeBytes(types: Option<(byte, nat)>): seq<byte> {
    match types
    case None => [OMIT]
    case Some((t, offset)) => [t] + EncodeU(offset)
  }

  lemma TypeTableReads(buf: seq<byte>, p: nat, types: Option<(byte, nat)>, rest: seq<byte>)
    requires types.Some? ==> types.value.0 != OMIT && types.value.1 < TWO_64
    requires Written(buf, p, TypeBytes(types) + rest)
    ensures TypeTable(buf, p) == SiteTable(buf, p + |TypeBytes(types)|) && Written(buf, p + |TypeBytes(types)|, rest)
  {
    hide Uleb, EncodeU, Written, SiteTable;
    WrittenParts(buf, p, TypeBytes(types), rest);
    match types {
      case None => OneByte(buf, p, OMIT);
      case Some((t, offset)) =>
        WrittenParts(buf, p, [t], EncodeU(offset));
        OneByte(buf, p, t);
        UnsignedRoundTrip(buf, p + 1, offset);
    }
  }

  lemma HeaderReads(buf: seq<byte>, lsda: nat, types: Option<(byte, nat)>, encoding: byte, table: seq<byte>)
    requires types.Some? ==> types.value.0 != OMIT && types.value.1 < TWO_64
    requires |table| < TWO_31 && Written(buf, lsda, EncodeLsda(types, encoding, table))
    ensures lsda < |buf| && buf[lsda] == OMIT && lsda + |EncodeLsda(types, encoding, table)| >= |table|
    ensures var end := lsda + |EncodeLsda(types, encoding, table)|;
      ReadHeader(buf, lsda) == Header(encoding, end - |table|, end) && Written(buf, end - |table|, table)
  {
    hide Uleb, EncodeU, Written, EncodedPtr, TypeBytes, TypeTable, SiteTable;
    var n := EncodeU(|table|);
    WrittenParts(buf, lsda, [OMIT], TypeBytes(types) + ([encoding] + (n + table)));
    OneByte(buf, lsda, OMIT);
    OmittedIsEmpty(buf, lsda + 1);
    TypeTableReads(buf, lsda + 1, types, [encoding] + (n + table));
    SiteTableReads(buf, lsda + 1 + |TypeBytes(types)|, encoding, table);
  }

  lemma OneByte(buf: seq<byte>, p: nat, b: byte)
    requires Written(buf, p, [b])
    ensures p < |buf| && buf[p] == b
  {
    assert buf[p..p + 1][0] == b;
  }

  /** Whatever sits behind it, a written data area means what its list of entries means. */
  lemma LsdaMeansList(buf: seq<byte>, lsda: nat, types: Option<(byte, nat)>, encoding: byte, sites: seq<CallSite>, q: Query)
    requires Supported(encoding) && |EncodeTable(encoding, sites)| < TWO_31
    requires types.Some? ==> types.value.0 != OMIT && types.value.1 < TWO_64
    requires forall s :: s in sites ==> Words64(s) && SiteInRange(encoding, s)
    requires Written(buf, lsda, EncodeLsda(types, encoding, EncodeTable(encoding, sites)))
    ensures LsdaOutcome(buf, lsda, q)
         == ScanSites(buf, sites, lsda + |EncodeLsda(types, encoding, EncodeTable(encoding, sites))|, q)
  {
    hide ScanTable, ScanSites, EncodeTable, EncodeLsda, Written, ReadHeader, Table, Words64, SiteInRange;
    var table := EncodeTable(encoding, sites);
    HeaderReads(buf, lsda, types, encoding, table);
    var h := ReadHeader(buf, lsda);
    TableRoundTrip(buf, h.table, encoding, sites);
    ScanIsListScan(buf, h.table, h.end, encoding, h.end, q);
  }

  // ----- overlapping ranges

  const OVERLAP: seq<CallSite> := [CallSite(0, 10, 5, 0), CallSite(0, 10, 7, 1)]

  /** One byte, then a data area whose two ranges overlap, then a chain of one link. */
  function OverlapBytes(): seq<byte> {
    [0] + EncodeLsda(None, ULEB128, EncodeTable(ULEB128, OVERLAP)) + [1, 0]
  }

  /** With overlapping ranges the phases need not agree: the first entry that holds the pc has
      no action, the second has one. Search finds a handler, and cleanup installs the first
      entry's landing pad with value zero. */
  lemma OverlapDisagrees(funcStart: nat)
    ensures OverlapBytes() == [0x00, 0xff, 0xff, 0x01, 0x08, 0x00, 0x0a, 0x05, 0x00, 0x00, 0x0a, 0x07, 0x01, 0x01, 0x00]
    ensures LsdaOutcome(OverlapBytes(), 1, Query(true, false, 3, funcStart)) == HandlerFound
    ensures LsdaOutcome(OverlapBytes(), 1, Query(false, false, 3, funcStart)) == Install(ToU64(funcStart + 5), 0)
  {
    hide SiteAction, ToU64, EncodeLsda, EncodeTable, LsdaOutcome;
    var buf := OverlapBytes();
    var data := EncodeLsda(None, ULEB128, EncodeTable(ULEB128, OVERLAP));
    EightBytes();
    OverlapInBytes();
    forall s | s in OVERLAP ensures Words64(s) && SiteInRange(ULEB128, s) {}
    assert buf[1..1 + |data|] == data;
    LsdaMeansList(buf, 1, None, ULEB128, OVERLAP, Query(true, false, 3, funcStart));
    LsdaMeansList(buf, 1, None, ULEB128, OVERLAP, Query(false, false, 3, funcStart));
    assert buf[1 + |data|..1 + |data| + 2] == [1, 0];
    OneLinkMatches(buf, 1 + |data|);
    NoActionNoMatch(buf, 1 + |data|, OVERLAP[0]);
    TenHoldsThree();
    assert OVERLAP[1..][0] == OVERLAP[1];
  }

  lemma OverlapInBytes()
    ensures OverlapBytes() == [0x00, 0xff, 0xff, 0x01, 0x08, 0x00, 0x0a, 0x05, 0x00, 0x00, 0x0a, 0x07, 0x01, 0x01, 0x00]
  {
    forall v: nat | v < 128 ensures EncodeU(v) == [v] {}
    assert OVERLAP[1..] == [OVERLAP[1]] && OVERLAP[1..][1..] == [];
    assert EncodeSite(ULEB128, OVERLAP[0]) == [0x00, 0x0a, 0x05, 0x00];
    assert EncodeSite(ULEB128, OVERLAP[1]) == [0x00, 0x0a, 0x07, 0x01];
    assert EncodeTable(ULEB128, OVERLAP) == [0x00, 0x0a, 0x05, 0x00] + [0x00, 0x0a, 0x07, 0x01];
    assert EncodeU(8) == [0x08];
  }

  lemma TenHoldsThree()
    ensures Candidate(OVERLAP[0], 3) && Candidate(OVERLAP[1], 3)
  {
  }

  lemma EightBytes()
    ensures |EncodeTable(ULEB128, OVERLAP)| == 8
  {
    assert OVERLAP[1..] == [OVERLAP[1]] && OVERLAP[1..][1..] == [];
    assert |EncodeSite(ULEB128, OVERLAP[0])| == 4 && |EncodeSite(ULEB128, OVERLAP[1])| == 4;
  }

  lemma OneLinkMatches(buf: seq<byte>, actions: nat)
    requires actions + 2 <= |buf| && buf[actions..actions + 2] == [1, 0]
    ensures SiteAction(buf, actions, OVERLAP[1], false) == Matched(1)
  {
    hide ActionAt, Walk, Sleb, LinkAt;
    assert EncodeS(1) + EncodeS(0) == [1, 0];
    ChainIsSearched(buf, actions, [Link(1, 0)]);
  }

  lemma NoActionNoMatch(buf: seq<byte>, actions: nat, site: CallSite)
    requires site.action == 0
    ensures SiteAction(buf, actions, site, false) == NoMatch
  {
  }
}

/** The language-specific data area of a function, and what the personality routine makes of
    it: a header, a table of call sites, and behind the table chains of actions. */
module Lsda {
  import opened Bytes
  import opened Leb
  import opened Options
  import opened Pointers
  import opened Words

  datatype CallSite = CallSite(start: nat, length: nat, landingPad: nat, action: nat)

  datatype SiteRead = SiteFault | SiteAborted | Site(site: CallSite, next: nat)

  function ReadSite(buf: seq<byte>, p: nat, encoding: byte): (r: SiteRead)
    ensures r.Site? ==> p < r.next <= |buf|
  {
    match EncodedPtr(buf, p, encoding)
    case Fault => SiteFault
    case Aborted => SiteAborted
    case Got(start, p1) =>
      match EncodedPtr(buf, p1, encoding)
      case Fault => SiteFault
      case Aborted => SiteAborted
      case Got(length, p2) =>
        match EncodedPtr(buf, p2, encoding)
        case Fault => SiteFault
        case Aborted => SiteAborted
        case Got(pad, p3) =>
          match Uleb(buf, p3)
          case Got(action, p4) => Site(CallSite(start, length, pad, action), p4)
          case _ => SiteFault
  }

  method UnwindCallsiteRead(buf: seq<byte>, p: nat, encoding: byte) returns (r: SiteRead)
    ensures r == ReadSite(buf, p, encoding)
  {
    hide EncodedPtr, Uleb;
    var start := ReadEncodedPointer(buf, p, encoding);
    if !start.Got? {
      return if start.Fault? then SiteFault else SiteAborted;
    }
    var length := ReadEncodedPointer(buf, start.next, encoding);
    if !length.Got? {
      return if length.Fault? then SiteFault else SiteAborted;
    }
    var pad := ReadEncodedPointer(buf, length.next, encoding);
    if !pad.Got? {
      return if pad.Fault? then SiteFault else SiteAborted;
    }
    var action := ReadULEB128(buf, pad.next);
    if !action.Got? {
      return SiteFault;
    }
    r := Site(CallSite(start.value, length.value, pad.value, action.value), action.next);
  }

  predicate Contains(site: CallSite, pc: nat) {
    site.start <= pc < ToU64(site.start + site.length)
  }

  // ----- actions

  datatype ActionResult = NoMatch | Matched(value: nat) | ActionAborted | ActionFault | Endless

  /** A pair of a filter and a displacement, and the place the displacement counts from, which
      is where it is itself stored. */
  datatype LinkRead = BadLink | GoodLink(filter: int, displacement: int, here: nat)

  function LinkAt(buf: seq<byte>, pos: int): LinkRead {
    if pos < 0 then BadLink
    else
      match Sleb(buf, pos)
      case Got(filter, q) =>
        (match Sleb(buf, q)
         case Got(displacement, _) => GoodLink(ToS64(filter), ToS64(displacement), q)
         case _ => BadLink)
      case _ => BadLink
  }

  method ReadLink(buf: seq<byte>, pos: int) returns (r: LinkRead)
    ensures r == LinkAt(buf, pos)
  {
    hide Sleb;
    if pos < 0 {
      return BadLink;
    }
    var filter := ReadSLEB128(buf, pos);
    if !filter.Got? {
      return BadLink;
    }
    var displacement := ReadSLEB128(buf, filter.next);
    if !displacement.Got? {
      return BadLink;
    }
    r := GoodLink(ToS64(filter.value), ToS64(displacement.value), filter.next);
  }

  /** Follow a chain of links for at most so many of them. */
  function Walk(buf: seq<byte>, pos: int, i: nat, links: nat): ActionResult
    decreases links
  {
    if links == 0 then Endless
    else
      match LinkAt(buf, pos)
      case BadLink => ActionFault
      case GoodLink(filter, displacement, here) =>
        if filter < 0 then ActionAborted
        else if filter > 0 then Matched(i + 1)
        else if displacement == 0 then NoMatch
        else Walk(buf, here + displacement, i + 1, links - 1)
  }

  /** Where the chain from pos leads; a chain that comes back to itself has no end. */
  ghost function ActionAt(buf: seq<byte>, pos: int): ActionResult {
    if n: nat :| Walk(buf, pos, 0, n) != Endless then Walk(buf, pos, 0, n) else Endless
  }

  lemma {:induction false} WalkLonger(buf: seq<byte>, pos: int, i: nat, m: nat, n: nat)
    requires m <= n && Walk(buf, pos, i, m) != Endless
    ensures Walk(buf, pos, i, n) == Walk(buf, pos, i, m)
    decreases m
  {
    hide LinkAt;
    if m > 0 {
      match LinkAt(buf, pos) {
        case GoodLink(filter, displacement, here) =>
          if filter == 0 && displacement != 0 {
            WalkLonger(buf, here + displacement, i + 1, m - 1, n - 1);
          }
        case _ =>
      }
    }
  }

  lemma ActionIs(buf: seq<byte>, pos: int, n: nat)
    requires Walk(buf, pos, 0, n) != Endless
    ensures ActionAt(buf, pos) == Walk(buf, pos, 0, n)
  {
    hide Walk;
    var m: nat :| Walk(buf, pos, 0, m) != Endless && ActionAt(buf, pos) == Walk(buf, pos, 0, m);
    WalkLonger(buf, pos, 0, if m <= n then m else n, if m <= n then n else m);
  }

  lemma WalkEnds(buf: seq<byte>, pos: int) returns (n: nat)
    requires ActionAt(buf, pos) != Endless
    ensures Walk(buf, pos, 0, n) == ActionAt(buf, pos)
  {
    hide Walk;
    n :| Walk(buf, pos, 0, n) != Endless;
    ActionIs(buf, pos, n);
  }

  lemma WalkOn(buf: seq<byte>, pos: int, i: nat, links: nat)
    requires links > 0
    ensures Walk(buf, pos, i, links) ==
      match LinkAt(buf, pos)
      case BadLink => ActionFault
      case GoodLink(filter, displacement, here) =>
        if filter < 0 then ActionAborted
        else if filter > 0 then Matched(i + 1)
        else if displacement == 0 then NoMatch
        else Walk(buf, here + displacement, i + 1, links - 1)
  {
    hide LinkAt;
  }

  lemma {:induction false} WalkIndex(buf: seq<byte>, pos: int, i: nat, j: nat, links: nat)
    ensures Walk(buf, pos, i, links) == Endless <==> Walk(buf, pos, j, links) == Endless
    decreases links
  {
    hide LinkAt;
    if links > 0 {
      match LinkAt(buf, pos) {
        case GoodLink(filter, displacement, here) =>
          if filter == 0 && displacement != 0 {
            WalkIndex(buf, here + displacement, i + 1, j + 1, links - 1);
          }
        case _ =>
      }
    }
  }

  lemma GoodLinkInside(buf: seq<byte>, pos: int)
    requires LinkAt(buf, pos).GoodLink?
    ensures 0 <= pos < |buf|
  {
  }

  /** The places a walk of n links comes through before its last link, when no shorter walk comes
      to an end: they are all different, since fewer links remain from each than from the one
      before. */
  lemma {:induction false} PlacesDiffer(buf: seq<byte>, pos: int, n: nat) returns (places: set<int>)
    requires n > 0 && Walk(buf, pos, 0, n) != Endless && Walk(buf, pos, 0, n - 1) == Endless
    ensures |places| == n - 1
    ensures forall x :: x in places ==> 0 <= x < |buf| && Walk(buf, x, 0, n) != Endless
    decreases n
  {
    hide LinkAt;
    if n == 1 {
      places := {};
    } else {
      WalkOn(buf, pos, 0, n);
      var link := LinkAt(buf, pos);
      GoodLinkInside(buf, pos);
      var next := link.here + link.displacement;
      WalkIndex(buf, next, 1, 0, n - 1);
      WalkIndex(buf, next, 1, 0, n - 2);
      var rest := PlacesDiffer(buf, next, n - 1);
      assert pos !in rest;
      places := rest + {pos};
      forall x | x in rest ensures Walk(buf, x, 0, n) != Endless {
        WalkLonger(buf, x, 0, n - 1, n);
      }
    }
  }

  lemma {:induction false} FewInside(s: set<int>, n: nat)
    requires forall x :: x in s ==> 0 <= x < n
    ensures |s| <= n
    decreases n
  {
    if n == 0 {
      assert forall x :: x !in s;
    } else {
      FewInside(s - {n - 1}, n - 1);
    }
  }

  lemma {:induction false} Shortest(buf: seq<byte>, pos: int, n: nat) returns (m: nat)
    requires Walk(buf, pos, 0, n) != Endless
    ensures 0 < m <= n && Walk(buf, pos, 0, m) != Endless && Walk(buf, pos, 0, m - 1) == Endless
    decreases n
  {
    if n > 0 && Walk(buf, pos, 0, n - 1) != Endless {
      m := Shortest(buf, pos, n - 1);
    } else {
      m := n;
    }
  }

  /** A chain that is followed for more links than there are bytes has come back to itself. */
  lemma LongIsEndless(buf: seq<byte>, pos: int)
    ensures ActionAt(buf, pos) == Walk(buf, pos, 0, |buf| + 1)
  {
    hide Walk;
    if n: nat :| Walk(buf, pos, 0, n) != Endless {
      var m := Shortest(buf, pos, n);
      var places := PlacesDiffer(buf, pos, m);
      FewInside(places, |buf|);
      WalkLonger(buf, pos, 0, m, |buf| + 1);
      ActionIs(buf, pos, |buf| + 1);
    }
  }

  /** Follow the chain to its first positive filter. The bound on the links stands for what the
      original does not notice: it goes round such a chain for ever. */
  method HandleActionValue(buf: seq<byte>, entry: int, foreign: bool) returns (r: ActionResult)
    ensures r == if foreign then NoMatch else ActionAt(buf, entry)
  {
    hide *;
    if foreign {
      return NoMatch;
    }
    LongIsEndless(buf, entry);
    var pos, i := entry, 0;
    while i <= |buf|
      invariant i <= |buf| + 1 && Walk(buf, pos, i, |buf| + 1 - i) == ActionAt(buf, entry)
    {
      WalkOn(buf, pos, i, |buf| + 1 - i);
      var link := ReadLink(buf, pos);
      if link.BadLink? {
        return ActionFault;
      }
      if link.filter < 0 {
        return ActionAborted;
      }
      if link.filter > 0 {
        return Matched(i + 1);
      }
      if link.displacement == 0 {
        return NoMatch;
      }
      pos, i := link.here + link.displacement, i + 1;
    }
    WalkOver(buf, pos, i);
    return Endless;
  }

  lemma WalkOver(buf: seq<byte>, pos: int, i: nat)
    ensures Walk(buf, pos, i, 0) == Endless
  {
  }

  /** What an entry's actions say. They are not looked at for a foreign exception. */
  ghost function SiteAction(buf: seq<byte>, actions: nat, site: CallSite, foreign: bool): ActionResult {
    if foreign || site.action == 0 then NoMatch else ActionAt(buf, actions + ToS64(site.action) - 1)
  }

  // ----- the table

  datatype Outcome = Crashed | Aborts | Hangs | ContinueUnwind | HandlerFound | Install(ip: nat, value: nat)

  /** One phase of unwinding, for one frame. */
  datatype Query = Query(search: bool, foreign: bool, pc: nat, funcStart: nat)

  predicate Candidate(site: CallSite, pc: nat) {
    site.landingPad != 0 && Contains(site, pc)
  }

  /** What the loop over the table comes to, byte by byte. */
  ghost function ScanTable(buf: seq<byte>, p: nat, end: nat, encoding: byte, actions: nat, q: Query): Outcome
    decreases |buf| - p
  {
    if p >= end then ContinueUnwind
    else
      match ReadSite(buf, p, encoding)
      case SiteFault => Crashed
      case SiteAborted => Aborts
      case Site(site, next) =>
        if !Candidate(site, q.pc) then ScanTable(buf, next, end, encoding, actions, q)
        else
          match SiteAction(buf, actions, site, q.foreign)
          case Endless => Hangs
          case ActionFault => Crashed
          case ActionAborted => Aborts
          case Matched(v) => if q.search then HandlerFound else Install(ToU64(q.funcStart + site.landingPad), v)
          case NoMatch =>
            if q.search then ScanTable(buf, next, end, encoding, actions, q)
            else Install(ToU64(q.funcStart + site.landingPad), 0)
  }

  datatype HeaderRead = HeaderFault | HeaderAborted | Header(encoding: byte, table: nat, end: nat)

  function TypeTable(buf: seq<byte>, p: nat): HeaderRead {
    if p >= |buf| then HeaderFault
    else if buf[p] == OMIT then SiteTable(buf, p + 1)
    else
      match Uleb(buf, p + 1)
      case Got(_, q) => SiteTable(buf, q)
      case _ => HeaderFault
  }

  function SiteTable(buf: seq<byte>, p: nat): HeaderRead {
    if p >= |buf| then HeaderFault
    else
      match Uleb(buf, p + 1)
      case Got(length, q) => Header(buf[p], q, q + length % TWO_32)
      case _ => HeaderFault
  }

  function ReadHeader(buf: seq<byte>, lsda: nat): HeaderRead
  {
    if lsda >= |buf| then HeaderFault
    else
      match EncodedPtr(buf, lsda + 1, buf[lsda])
      case Fault => HeaderFault
      case Aborted => HeaderAborted
      case Got(_, p) => TypeTable(buf, p)
  }

  ghost function LsdaOutcome(buf: seq<byte>, lsda: nat, q: Query): Outcome
  {
    match ReadHeader(buf, lsda)
    case HeaderFault => Crashed
    case HeaderAborted => Aborts
    case Header(encoding, table, end) => ScanTable(buf, table, end, encoding, end, q)
  }

  lemma OmittedIsEmpty(buf: seq<byte>, p: nat)
    ensures EncodedPtr(buf, p, OMIT) == Got(0, p)
  {
  }

  method ReadHeaderOf(buf: seq<byte>, lsda: nat) returns (r: HeaderRead)
    ensures r == ReadHeader(buf, lsda)
  {
    hide Uleb, EncodedPtr;
    var p := lsda;
    if p >= |buf| {
      return HeaderFault;
    }
    var lpStartEncoding := buf[p];
    p := p + 1;
    if lpStartEncoding != OMIT {
      var lpStart := ReadEncodedPointer(buf, p, lpStartEncoding);
      if !lpStart.Got? {
        return if lpStart.Fault? then HeaderFault else HeaderAborted;
      }
      p := lpStart.next;
    } else {
      OmittedIsEmpty(buf, p);
    }
    if p >= |buf| {
      return HeaderFault;
    }
    var ttypeEncoding := buf[p];
    p := p + 1;
    if ttypeEncoding != OMIT {
      var classInfoOffset := ReadULEB128(buf, p);
      if !classInfoOffset.Got? {
        return HeaderFault;
      }
      p := classInfoOffset.next;
    }
    if p >= |buf| {
      return HeaderFault;
    }
    var callSiteEncoding := buf[p];
    p := p + 1;
    var length := ReadULEB128(buf, p);
    if !length.Got? {
      return HeaderFault;
    }
    r := Header(callSiteEncoding, length.next, length.next + length.value % TWO_32);
  }

  /** Walk the call-site table, looking for a range with the program counter and a landing pad. */
  method HandleLsda(buf: seq<byte>, lsda: nat, search: bool, foreign: bool, ip: nat, funcStart: nat) returns (r: Outcome)
    ensures r == LsdaOutcome(buf, lsda, QueryAt(search, foreign, ip, funcStart))
  {
    hide ReadSite, ReadHeader, ActionAt, Contains;
    var pcOffset := ToU64(ToU64(ip - 1) - funcStart);
    ghost var q := QueryAt(search, foreign, ip, funcStart);
    var header := ReadHeaderOf(buf, lsda);
    if !header.Header? {
      return if header.HeaderFault? then Crashed else Aborts;
    }
    var actionTable := header.end;
    var p := header.table;
    while p < header.end
      invariant ScanTable(buf, p, header.end, header.encoding, actionTable, q) == LsdaOutcome(buf, lsda, q)
      decreases |buf| - p
    {
      var read := UnwindCallsiteRead(buf, p, header.encoding);
      if !read.Site? {
        return if read.SiteFault? then Crashed else Aborts;
      }
      p := read.next;
      var site := read.site;
      if site.landingPad == 0 {
        continue;
      }
      if Contains(site, pcOffset) {
        var matched := NoMatch;
        if !foreign && site.action != 0 {
          matched := HandleActionValue(buf, actionTable + ToS64(site.action) - 1, foreign);
        }
        if matched.Endless? {
          return Hangs;
        }
        if matched.ActionFault? {
          return Crashed;
        }
        if matched.ActionAborted? {
          return Aborts;
        }
        if !search {
          return Install(ToU64(funcStart + site.landingPad), if matched.Matched? then matched.value else 0);
        }
        if matched.Matched? {
          return HandlerFound;
        }
      }
    }
    return ContinueUnwind;
  }

  /** The pc that is looked up is that of the call, just before the return address. */
  function QueryAt(search: bool, foreign: bool, ip: nat, funcStart: nat): Query {
    Query(search, foreign, ToU64(ToU64(ip - 1) - funcStart), funcStart)
  }

  /** Other versions and frames without data are passed by. */
  method Personality(version: int, search: bool, foreign: bool, buf: seq<byte>, lsda: Option<nat>, ip: nat, funcStart: nat)
    returns (r: Outcome)
    ensures r == if version != 1 || lsda.None? then ContinueUnwind
                 else LsdaOutcome(buf, lsda.value, QueryAt(search, foreign, ip, funcStart))
  {
    if version != 1 {
      return ContinueUnwind;
    }
    if lsda.None? {
      return ContinueUnwind;
    }
    r := HandleLsda(buf, lsda.value, search, foreign, ip, funcStart);
  }
}

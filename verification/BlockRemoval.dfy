/** Taking every injected section out again (`src/apache.rs`, `without_injected_blocks`). */
module BlockRemoval {
  import opened Text
  import opened ConfText
  import opened ConfWords
  import opened ConfHosts
  import opened BlockConfig
  import opened RewriteProgram
  import opened BlockText
  import opened OwnBlock
  import opened BlockEdits
  import opened ApplyBlocks
  import opened ApplyTheorems

  /** The earlier of two spans, as `min` orders them. */
  function Earlier(a: Option<Span>, b: Option<Span>): Option<Span> {
    match (a, b)
    case (None, _) => b
    case (_, None) => a
    case (Some(s), Some(t)) =>
      if s.start < t.start || (s.start == t.start && s.end <= t.end) then Some(s) else Some(t)
  }

  /** A host's first section: a block, or the console section of an earlier release. */
  function SectionIn(content: string, host: VirtualHost): Option<Span> {
    Earlier(LocateMarked(content, host, BLOCK_BEGIN, BLOCK_END),
            LocateMarked(content, host, CONSOLE_BEGIN, CONSOLE_END))
  }

  function FirstSection(content: string, hosts: seq<VirtualHost>): Option<Span> {
    if hosts == [] then None
    else
      match SectionIn(content, hosts[0])
      case Some(s) => Some(s)
      case None => FirstSection(content, hosts[1..])
  }

  ghost predicate Fits(s: Span, content: string) {
    s.start < s.end <= |content|
  }

  lemma RangeFits(content: string, before: seq<LogicalLine>, body: seq<LogicalLine>, after: seq<LogicalLine>, r: Range)
    requires Around(content, before, body, after) && r.from < r.to <= |body|
    ensures Fits(SpanOf(body, |Raw(before)|, r), content)
  {
    hide Raw, WellFormed, Logical;
    WellFormedNoneBlank(before + body + after);
    Replaced(content, before, body, after, r, []);
    var a, m := body[..r.from], body[r.from..r.to];
    assert body[..r.to] == a + m;
    RawConcat(a, m);
    RawNotBlank(m) by { assert m[0] == (before + body + after)[|before| + r.from]; }
  }

  lemma RawNotBlank(ls: seq<LogicalLine>)
    requires ls != [] && ls[0].raw != ""
    ensures Raw(ls) != ""
  {
  }

  lemma LocatedFits(content: string, front: seq<Piece>, p: Piece, back: seq<Piece>, begin: string, end: string)
    requires FileIs(content, front + [p] + back) && p.Host?
    ensures LocateMarked(content, HostAfter(front, p), begin, end)
         == match Located(p.body, begin, end)
            case None => None
            case Some(r) => Some(SpanOf(p.body, |Raw(LinesBefore(front, p))|, r))
    ensures Around(content, LinesBefore(front, p), p.body, LinesAfter(p, back))
  {
    hide Pieces, Logical, Flatten, Raw, WellFormed, Solid, AddressesOf, HostOf, Located, LocateMarked;
    HostLines(front, p, back);
    HostOfPlace(AddressesOf(p.head), p.body, |Raw(Flatten(front))| + |p.head.raw|);
    RawConcat(Flatten(front), [p.head]);
    RawOne(p.head);
    LocatedIn(content, LinesBefore(front, p), p.body, LinesAfter(p, back), HostAfter(front, p), begin, end);
  }

  /** The earlier of two ranges of lines. */
  function EarlierRange(a: Option<Range>, b: Option<Range>): (r: Option<Range>)
    ensures r == a || r == b
    ensures r == None <==> a == None && b == None
  {
    match (a, b)
    case (None, _) => b
    case (_, None) => a
    case (Some(s), Some(t)) => if s.from < t.from || (s.from == t.from && s.to <= t.to) then Some(s) else Some(t)
  }

  function SectionAt(body: seq<LogicalLine>): (r: Option<Range>)
    ensures r.Some? ==> r.value.from < r.value.to <= |body|
  {
    EarlierRange(Located(body, BLOCK_BEGIN, BLOCK_END), Located(body, CONSOLE_BEGIN, CONSOLE_END))
  }

  lemma RawMonotone(ls: seq<LogicalLine>, m: nat, n: nat)
    requires m <= n <= |ls|
    ensures |Raw(ls[..m])| <= |Raw(ls[..n])|
    ensures m < n && NoneBlank(ls) ==> |Raw(ls[..m])| < |Raw(ls[..n])|
  {
    hide Raw;
    RawConcat(ls[..m], ls[m..n]);
    assert ls[..n] == ls[..m] + ls[m..n];
    if m < n && NoneBlank(ls) { RawNotBlank(ls[m..n]); }
  }

  /** The earlier span is the earlier range. */
  lemma EarlierIsEarlier(body: seq<LogicalLine>, open: nat, a: Option<Range>, b: Option<Range>)
    requires NoneBlank(body)
    requires a.Some? ==> a.value.from < a.value.to <= |body|
    requires b.Some? ==> b.value.from < b.value.to <= |body|
    ensures Earlier(match a case None => None case Some(r) => Some(SpanOf(body, open, r)),
                    match b case None => None case Some(r) => Some(SpanOf(body, open, r)))
         == match EarlierRange(a, b) case None => None case Some(r) => Some(SpanOf(body, open, r))
  {
    hide Raw, NoneBlank;
    if a.Some? && b.Some? {
      RawMonotone2(body, a.value.from, b.value.from);
      RawMonotone2(body, a.value.to, b.value.to);
    }
  }

  lemma RawMonotone2(ls: seq<LogicalLine>, m: nat, n: nat)
    requires m <= |ls| && n <= |ls| && NoneBlank(ls)
    ensures m < n <==> |Raw(ls[..m])| < |Raw(ls[..n])|
    ensures m == n <==> |Raw(ls[..m])| == |Raw(ls[..n])|
  {
    hide Raw, NoneBlank;
    if m < n { RawMonotone(ls, m, n); } else if n < m { RawMonotone(ls, n, m); }
  }

  /** A host's first section in the text is the one in its lines. */
  lemma SectionIs(content: string, front: seq<Piece>, p: Piece, back: seq<Piece>)
    requires FileIs(content, front + [p] + back) && p.Host?
    ensures SectionIn(content, HostAfter(front, p))
         == match SectionAt(p.body)
            case None => None
            case Some(r) => Some(SpanOf(p.body, |Raw(LinesBefore(front, p))|, r))
    ensures Around(content, LinesBefore(front, p), p.body, LinesAfter(p, back))
  {
    hide Pieces, Logical, Flatten, Raw, WellFormed, Solid, AddressesOf, HostOf, Located, LocateMarked, FileIs, Earlier, EarlierRange, LinesBefore, LinesAfter;
    LocatedFits(content, front, p, back, BLOCK_BEGIN, BLOCK_END);
    LocatedFits(content, front, p, back, CONSOLE_BEGIN, CONSOLE_END);
    WellFormedNoneBlank(LinesBefore(front, p) + p.body + LinesAfter(p, back));
    NoneBlankSplit(LinesBefore(front, p), p.body, LinesAfter(p, back));
    EarlierIsEarlier(p.body, |Raw(LinesBefore(front, p))|, Located(p.body, BLOCK_BEGIN, BLOCK_END),
                     Located(p.body, CONSOLE_BEGIN, CONSOLE_END));
  }

  predicate HasSection(p: Piece) {
    p.Host? && SectionAt(p.body).Some?
  }

  /** The first piece with a section, or the end. */
  function FirstMarked(ps: seq<Piece>): nat {
    if ps == [] || HasSection(ps[0]) then 0 else 1 + FirstMarked(ps[1..])
  }

  lemma {:induction false} FirstMarkedIs(ps: seq<Piece>)
    ensures FirstMarked(ps) <= |ps|
    ensures FirstMarked(ps) < |ps| ==> HasSection(ps[FirstMarked(ps)])
    ensures forall j | 0 <= j < FirstMarked(ps) :: !HasSection(ps[j])
  {
    hide HasSection;
    if ps != [] && !HasSection(ps[0]) {
      FirstMarkedIs(ps[1..]);
    }
  }

  /** The first section found from `rest` on is the first piece's that has one. */
  ghost predicate FoundIn(content: string, front: seq<Piece>, rest: seq<Piece>) {
    var k := FirstMarked(rest);
    FirstSection(content, HostsOf(rest, |Raw(Flatten(front))|))
    == if k >= |rest| || !HasSection(rest[k]) then None
       else Some(SpanOf(rest[k].body, |Raw(LinesBefore(front + rest[..k], rest[k]))|, SectionAt(rest[k].body).value))
  }

  lemma {:induction false} FirstSectionIs(content: string, front: seq<Piece>, rest: seq<Piece>)
    requires FileIs(content, front + rest)
    ensures FoundIn(content, front, rest)
    decreases |rest|
  {
    hide *;
    if rest == [] {
      FoundNowhere(content, front);
    } else {
      var p, more := rest[0], rest[1..];
      assert front + rest == front + [p] + more && rest == [p] + more;
      if HasSection(p) {
        FoundHere(content, front, p, more);
      } else {
        FirstSectionIs(content, front + [p], more);
        FoundLater(content, front, p, more);
      }
    }
  }

  lemma FoundNowhere(content: string, front: seq<Piece>)
    ensures FoundIn(content, front, [])
  {
    hide Flatten, Raw;
  }

  lemma FoundHere(content: string, front: seq<Piece>, p: Piece, more: seq<Piece>)
    requires FileIs(content, front + [p] + more) && HasSection(p)
    ensures FoundIn(content, front, [p] + more)
  {
    hide FileIs, SectionAt, SectionIn, HostOf, AddressesOf, Flatten, Raw, PieceLines, LinesBefore, HostsOf, Around;
    HostsCons(p, more, |Raw(Flatten(front))|);
    SectionIs(content, front, p, more);
    assert FirstMarked([p] + more) == 0 && front + ([p] + more)[..0] == front;
    FirstOfHosts(content, HostAfter(front, p), HostsOf(more, |Raw(Flatten(front))| + |Raw(PieceLines(p))|));
  }

  lemma FirstOfHosts(content: string, host: VirtualHost, more: seq<VirtualHost>)
    ensures FirstSection(content, [host] + more)
         == if SectionIn(content, host).Some? then SectionIn(content, host) else FirstSection(content, more)
  {
    hide SectionIn;
    assert ([host] + more)[1..] == more;
  }

  lemma FoundLater(content: string, front: seq<Piece>, p: Piece, more: seq<Piece>)
    requires FileIs(content, front + [p] + more) && !HasSection(p) && FoundIn(content, front + [p], more)
    ensures FoundIn(content, front, [p] + more)
  {
    hide FileIs, SectionAt, SectionIn, HostOf, AddressesOf, Flatten, Raw, PieceLines, LinesBefore, HostsOf, FirstSection, Around;
    NextPlace(front, p);
    if p.Host? { SectionIs(content, front, p, more); }
    SkipHost(content, front, p, more);
    MarkedLater(p, more);
    FirstMarkedIs(more);
    var k := FirstMarked(more);
    if k < |more| {
      assert front + ([p] + more)[..k + 1] == front + [p] + more[..k];
    }
  }

  lemma MarkedLater(p: Piece, more: seq<Piece>)
    requires !HasSection(p)
    ensures FirstMarked([p] + more) == 1 + FirstMarked(more)
  {
    hide HasSection;
    assert ([p] + more)[1..] == more;
  }

  lemma NextPlace(front: seq<Piece>, p: Piece)
    ensures |Raw(Flatten(front + [p]))| == |Raw(Flatten(front))| + |Raw(PieceLines(p))|
  {
    hide Flatten, Raw, PieceLines;
    FlattenConcat(front, [p]);
    FlattenOne(p);
    RawConcat(Flatten(front), PieceLines(p));
  }

  lemma SkipHost(content: string, front: seq<Piece>, p: Piece, more: seq<Piece>)
    requires p.Host? ==> SectionIn(content, HostAfter(front, p)) == None
    ensures var at := |Raw(Flatten(front))|;
            FirstSection(content, HostsOf([p] + more, at)) == FirstSection(content, HostsOf(more, at + |Raw(PieceLines(p))|))
  {
    hide SectionIn, HostOf, AddressesOf, Flatten, Raw, PieceLines, HostsOf;
    var at := |Raw(Flatten(front))|;
    HostsCons(p, more, at);
    var rest := HostsOf(more, at + |Raw(PieceLines(p))|);
    if p.Host? {
      assert ([HostAfter(front, p)] + rest)[1..] == rest;
    } else {
      assert [] + rest == rest;
    }
  }

  lemma SectionFits(content: string)
    ensures match FirstSection(content, Hosts(content)) case None => true case Some(s) => Fits(s, content)
  {
    hide FileIs, SectionAt, SectionIn, HostsOf, Flatten, Raw, LinesBefore, Pieces, Logical, Around, Fits, FirstSection, Hosts;
    var ps := Pieces(Logical(content));
    EveryFile(content);
    HostsOfFile(content, ps);
    NothingBefore();
    assert [] + ps == ps;
    FirstSectionIs(content, [], ps);
    FirstMarkedIs(ps);
    var k := FirstMarked(ps);
    if k < |ps| {
      assert ps == ps[..k] + [ps[k]] + ps[k + 1..] && [] + ps[..k] == ps[..k];
      SectionIs(content, ps[..k], ps[k], ps[k + 1..]);
      RangeFits(content, LinesBefore(ps[..k], ps[k]), ps[k].body, LinesAfter(ps[k], ps[k + 1..]), SectionAt(ps[k].body).value);
    }
  }

  lemma NothingBefore()
    ensures |Raw(Flatten([]))| == 0
  {
  }

  /** A text with every section taken out, one at a time, the first of the file first. */
  function Cleaned(content: string): string
    decreases |content|
  {
    SectionFits(content);
    match FirstSection(content, Hosts(content))
    case None => content
    case Some(s) => Cleaned(content[..s.start] + content[s.end..])
  }

  lemma CleanedStep(content: string)
    ensures match FirstSection(content, Hosts(content))
            case None => Cleaned(content) == content
            case Some(s) => Fits(s, content) && Cleaned(content) == Cleaned(content[..s.start] + content[s.end..])
  {
    hide FirstSection, Hosts;
    SectionFits(content);
  }

  /** Finds the first section of the first host that has one. */
  method FindSection(content: string, hosts: seq<VirtualHost>) returns (found: Option<Span>)
    ensures found == FirstSection(content, hosts)
  {
    hide SectionIn;
    for k := 0 to |hosts|
      invariant FirstSection(content, hosts[k..]) == FirstSection(content, hosts)
    {
      assert hosts[k..][1..] == hosts[k + 1..];
      var section := SectionIn(content, hosts[k]);
      if section.Some? {
        return section;
      }
    }
    return None;
  }

  /** Takes out whole sections, reading the text again after each. */
  method WithoutInjectedBlocks(content: string) returns (text: string)
    ensures text == Cleaned(content)
    ensures FirstSection(text, Hosts(text)) == None
  {
    hide Cleaned, FirstSection, Hosts, HostsOf, Pieces, Logical;
    text := content;
    while true
      invariant Cleaned(text) == Cleaned(content)
      decreases |text|
    {
      var hosts := VirtualHosts(text);
      HostsAre(text);
      CleanedStep(text);
      var found := FindSection(text, hosts);
      if found.None? {
        return text;
      }
      text := text[..found.value.start] + text[found.value.end..];
    }
  }

  // ---- what removal undoes ----

  lemma OwnIsSection(x: seq<LogicalLine>, body: seq<LogicalLine>)
    requires IsOwnBlock(x) && CleanBody(body)
    ensures SectionAt(x + body) == Some(Range(0, |x|))
  {
    hide IsOwnBlock, Located, Neutral;
    OwnIsLocated(x, body);
    OwnIsNeutral(x);
    ConsolePastOwn(x, body);
  }

  lemma NothingMarkedIsSame(ps: seq<Piece>, qs: seq<Piece>)
    requires Clean(ps) && HaveBlocks(ps, qs) && FirstMarked(qs) == |qs|
    ensures qs == ps
  {
    hide CleanBody, HasBlock, SectionAt;
    FirstMarkedIs(qs);
    forall k | 0 <= k < |ps|
      ensures qs[k] == ps[k]
    {
      assert HasBlock(ps[k], qs[k]);
      assert !HasSection(qs[k]);
      if ps[k] != qs[k] {
        var x := SplitBlock(ps[k], qs[k]);
        assert CleanBody(ps[k].body);
        OwnIsSection(x, ps[k].body);
      }
    }
  }

  lemma FirstStepUndoes(ps: seq<Piece>, qs: seq<Piece>, k: nat)
    requires Clean(ps) && HaveBlocks(ps, qs) && FileIs(TextOf(ps), ps) && FileIs(TextOf(qs), qs)
    requires k == FirstMarked(qs) < |qs|
    ensures var rs := qs[k := ps[k]];
            HaveBlocks(ps, rs) && FileIs(TextOf(rs), rs)
            && |TextOf(rs)| < |TextOf(qs)| && Cleaned(TextOf(qs)) == Cleaned(TextOf(rs))
  {
    hide *;
    SameLength(ps, qs);
    var p, q := ps[k], qs[k];
    var front, back := qs[..k], qs[k + 1..];
    MarkedHasBlock(ps, qs, k);
    var x := SplitBlock(p, q);
    CleanAt(ps, k);
    OwnIsSection(x, p.body);
    assert qs == front + [q] + back && qs[k := p] == front + [p] + back;
    PieceIsBody(TextOf(ps), ps, k);
    FileWith(TextOf(qs), front, q, back, p.body);
    assert q.(body := p.body) == p;
    FirstIs(TextOf(qs), qs, k);
    SectionIs(TextOf(qs), front, q, back);
    AroundText(TextOf(qs), LinesBefore(front, q), q.body, LinesAfter(q, back));
    Replaced(TextOf(qs), LinesBefore(front, q), q.body, LinesAfter(q, back), Range(0, |x|), []);
    assert q.body[..0] + [] + q.body[|x|..] == p.body;
    RangeFits(TextOf(qs), LinesBefore(front, q), q.body, LinesAfter(q, back), Range(0, |x|)) by { OwnNotEmpty(x); }
    HostLines(front, p, back);
    SameAround(front, q, p, back);
    RawNone();
    CutText(front, p, back);
    CleanedStep(TextOf(qs));
    StillBlocks(ps, qs, k);
    FitsMeans(SpanOf(q.body, |Raw(LinesBefore(front, q))|, Range(0, |x|)), TextOf(qs));
  }

  lemma FitsMeans(s: Span, content: string)
    requires Fits(s, content)
    ensures s.start < s.end <= |content| && |content[..s.start] + content[s.end..]| < |content|
    ensures content[..s.start] + "" + content[s.end..] == content[..s.start] + content[s.end..]
  {
  }

  lemma OwnNotEmpty(x: seq<LogicalLine>)
    requires IsOwnBlock(x)
    ensures |x| > 0
  {
  }

  lemma AroundText(content: string, before: seq<LogicalLine>, body: seq<LogicalLine>, after: seq<LogicalLine>)
    requires Around(content, before, body, after)
    ensures content == Raw(before + body + after)
  {
    hide Raw, WellFormed, Logical;
  }

  lemma CutText(front: seq<Piece>, p: Piece, back: seq<Piece>)
    requires p.Host?
    ensures TextOf(front + [p] + back) == Raw(LinesBefore(front, p) + p.body + LinesAfter(p, back))
  {
    hide Raw, Flatten, LinesBefore, LinesAfter;
    HostLines(front, p, back);
  }

  lemma MarkedHasBlock(ps: seq<Piece>, qs: seq<Piece>, k: nat)
    requires Clean(ps) && HaveBlocks(ps, qs) && k == FirstMarked(qs) < |qs|
    ensures HasBlock(ps[k], qs[k]) && ps[k] != qs[k] && HasSection(qs[k])
  {
    FirstMarkedIs(qs);
    hide HasBlock, Located;
    assert HasBlock(ps[k], qs[k]);
    if ps[k].Host? { assert CleanBody(ps[k].body); }
  }

  lemma CleanAt(ps: seq<Piece>, k: nat)
    requires Clean(ps) && k < |ps| && ps[k].Host?
    ensures CleanBody(ps[k].body)
  {
    hide CleanBody;
  }

  lemma FirstIs(content: string, ps: seq<Piece>, k: nat)
    requires FileIs(content, ps) && k == FirstMarked(ps) < |ps| && HasSection(ps[k])
    ensures FirstSection(content, Hosts(content))
         == Some(SpanOf(ps[k].body, |Raw(LinesBefore(ps[..k], ps[k]))|, SectionAt(ps[k].body).value))
  {
    hide FileIs, SectionAt, SectionIn, HostsOf, Flatten, Raw, LinesBefore, FirstSection, Hosts;
    HostsOfFile(content, ps);
    NothingBefore();
    assert [] + ps == ps && [] + ps[..k] == ps[..k];
    FirstSectionIs(content, [], ps);
  }

  lemma StillBlocks(ps: seq<Piece>, qs: seq<Piece>, k: nat)
    requires HaveBlocks(ps, qs) && k < |qs|
    ensures HaveBlocks(ps, qs[k := ps[k]])
  {
    hide HasBlock;
    SameHasBlock(ps[k]);
  }

  /** Taking sections out of hosts that were given blocks gives the hosts back. */
  lemma {:induction false} BlocksComeOut(ps: seq<Piece>, qs: seq<Piece>)
    requires Clean(ps) && HaveBlocks(ps, qs) && FileIs(TextOf(ps), ps) && FileIs(TextOf(qs), qs)
    ensures Cleaned(TextOf(qs)) == TextOf(ps)
    decreases |TextOf(qs)|
  {
    hide *;
    FirstMarkedIs(qs);
    var k := FirstMarked(qs);
    if k == |qs| {
      NothingMarkedIsSame(ps, qs);
      NoSection(TextOf(qs), qs);
      CleanedStep(TextOf(qs));
    } else {
      SameLength(ps, qs);
      FirstStepUndoes(ps, qs, k);
      BlocksComeOut(ps, qs[k := ps[k]]);
    }
  }

  lemma SameLength(ps: seq<Piece>, qs: seq<Piece>)
    requires HaveBlocks(ps, qs)
    ensures |ps| == |qs|
  {
    hide HasBlock;
  }

  lemma NoSection(content: string, ps: seq<Piece>)
    requires FileIs(content, ps) && FirstMarked(ps) == |ps|
    ensures FirstSection(content, Hosts(content)) == None
  {
    hide FileIs, SectionAt, SectionIn, HostsOf, Flatten, Raw, LinesBefore, FirstSection, Hosts;
    HostsOfFile(content, ps);
    NothingBefore();
    assert [] + ps == ps;
    FirstSectionIs(content, [], ps);
  }

  /** On every file with no section of this project's, whatever is written and not refused,
      removing the sections gives the file back, character for character. */
  lemma RemovalUndoesApplying(w: World, choice: Choice, content: string)
    requires SaneEnv(w.env) && Clean(Pieces(Logical(content))) && Applied(w, choice, content).Ok?
    ensures Cleaned(Applied(w, choice, content).value) == content
  {
    hide *;
    var ps := Pieces(Logical(content));
    CleanIsTidy(ps);
    EveryFile(content);
    TextIs(content, ps);
    ApplyIsOnePass(w, choice, content);
    CleanFileGetsBlocks(w, choice, ps);
    BlocksComeOut(ps, Plan(w, choice, ps).value);
  }
}

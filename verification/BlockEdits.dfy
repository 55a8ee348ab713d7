/** Finding, replacing and removing the block in one host of a file (`src/apache.rs`). */
module BlockEdits {
  import opened Text
  import opened ConfText
  import opened ConfWords
  import opened ConfHosts
  import opened BlockConfig
  import opened RewriteProgram
  import opened BlockText
  import opened OwnBlock

  // ---- what may be written into a host ----

  /** What the rest of Apache's configuration says, for the questions a file cannot answer. */
  datatype Tree = Tree(http2: bool, prefork: bool, protocols: Option<seq<string>>)

  datatype NoHttp2 = NoMainConfig | NotLoaded | Prefork | NotSpoken

  datatype Reason = SpeaksHttp1(name: string, why: NoHttp2) | RewritesOff(name: string) | HostsChanged

  datatype Result<T> = Ok(value: T) | Err(reason: Reason)

  /** The arguments of the last directive of a name. */
  function LastOf(name: string, ds: seq<Directive>): Option<seq<string>> {
    if ds == [] then None
    else if ds[|ds| - 1].name == name then Some(ds[|ds| - 1].args)
    else LastOf(name, ds[..|ds| - 1])
  }

  predicate SaysH2(protocols: seq<string>) {
    exists k | 0 <= k < |protocols| :: Lower(protocols[k]) == "h2"
  }

  function WithoutH2(tree: Option<Tree>, host: VirtualHost): Option<NoHttp2> {
    match tree
    case None => Some(NoMainConfig)
    case Some(t) =>
      if !t.http2 then Some(NotLoaded)
      else if t.prefork then Some(Prefork)
      else
        var own := LastOf("protocols", host.serverScope);
        match if own.Some? then own else t.protocols
        case Some(protocols) => if SaysH2(protocols) then None else Some(NotSpoken)
        case None => Some(NotSpoken)
  }

  /** The last `RewriteEngine` in the host's own scope decides. */
  predicate RewriteSwitchedOff(host: VirtualHost) {
    match LastOf("rewriteengine", host.serverScope)
    case Some(args) => args != [] && Lower(args[0]) == "off"
    case None => false
  }

  function FirstName(host: VirtualHost): string {
    if host.names == [] then "_" else host.names[0]
  }

  /** Why a configuration cannot be written into a host as it asks, if it cannot. */
  function Refusal(env: Env, c: Config, host: VirtualHost, tree: Option<Tree>): Option<Reason> {
    var http := if Http1x in c.requestRules then WithoutH2(tree, host) else None;
    if http.Some? then Some(SpeaksHttp1(FirstName(host), http.value))
    else if Compile(env, c).Some? && RewriteSwitchedOff(host) then Some(RewritesOff(FirstName(host)))
    else None
  }

  function WithoutTlsRules(rules: seq<RequestRule>): seq<RequestRule> {
    if rules == [] then []
    else (if NeedsTls(rules[0]) then [] else [rules[0]]) + WithoutTlsRules(rules[1..])
  }

  /** A site's configuration, narrowed to what is safe in this host. */
  function ForHost(c: Config, host: VirtualHost): Config {
    if host.isTls then c else c.(requestRules := WithoutTlsRules(c.requestRules))
  }

  // ---- finding a marked section ----

  /** A range of a text. */
  datatype Span = Span(start: nat, end: nat)

  function Within(lines: seq<Line>, open: nat, close: nat): seq<Line> {
    if lines == [] then []
    else (if open <= lines[0].start < close then [lines[0]] else []) + Within(lines[1..], open, close)
  }

  function Position(lines: seq<Line>, mark: string): (at: Option<nat>)
    ensures at.Some? ==> at.value < |lines|
  {
    if lines == [] then None
    else if Trim(lines[0].text) == mark then Some(0)
    else match Position(lines[1..], mark) case None => None case Some(n) => Some(n + 1)
  }

  /** From a `begin` line to the next `end` line. */
  function MarkedSpan(lines: seq<Line>, begin: string, end: string): Option<Span> {
    match Position(lines, begin)
    case None => None
    case Some(first) =>
      match Position(lines[first..], end)
      case None => None
      case Some(last) => Some(Span(lines[first].start, lines[first + last].end))
  }

  function LocateMarked(content: string, host: VirtualHost, begin: string, end: string): Option<Span> {
    MarkedSpan(Within(Placed(Logical(content), 0), host.open, host.close), begin, end)
  }

  /** The configuration, narrowed, written into a host: a block inserted, replaced or removed, or
      the reason it is refused. A host found in `content` lies in it, and so does its section. */
  function ApplyBlock(env: Env, content: string, host: VirtualHost, c: Config, tree: Option<Tree>): Result<string> {
    var narrowed := ForHost(c, host);
    match Refusal(env, narrowed, host, tree)
    case Some(why) => Err(why)
    case None =>
      var span := match LocateMarked(content, host, BLOCK_BEGIN, BLOCK_END)
                  case Some(s) => s case None => Span(host.open, host.open);
      var block := match BlockTextOf(env, narrowed) case Some(text) => text case None => "";
      if span.start <= |content| && span.end <= |content| then
        Ok(content[..span.start] + block + content[span.end..])
      else Ok(content)
  }

  // ---- the same, on the lines of a host ----

  /** Some of a host's lines. */
  datatype Range = Range(from: nat, to: nat)

  function MarkAt(ls: seq<LogicalLine>, mark: string): (at: Option<nat>)
    ensures at.Some? ==> at.value < |ls| && Marks(ls[at.value], mark)
  {
    if ls == [] then None
    else if Marks(ls[0], mark) then Some(0)
    else match MarkAt(ls[1..], mark) case None => None case Some(n) => Some(n + 1)
  }

  function Located(body: seq<LogicalLine>, begin: string, end: string): (r: Option<Range>)
    ensures r.Some? ==> r.value.from < r.value.to <= |body|
  {
    match MarkAt(body, begin)
    case None => None
    case Some(first) =>
      match MarkAt(body[first..], end)
      case None => None
      case Some(last) => Some(Range(first, first + last + 1))
  }

  /** A host's lines with `block` where its block is, or in front of everything. */
  function Edited(body: seq<LogicalLine>, block: seq<LogicalLine>): seq<LogicalLine> {
    match Located(body, BLOCK_BEGIN, BLOCK_END)
    case None => block + body
    case Some(r) => body[..r.from] + block + body[r.to..]
  }

  // ---- lines and where they are ----

  /** Lines with their places, whatever ends them. */
  function Spread(ls: seq<LogicalLine>, at: nat): seq<Line> {
    if ls == [] then [] else [Line(at, at + |ls[0].raw|, ls[0].text)] + Spread(ls[1..], at + |ls[0].raw|)
  }

  ghost predicate NoneBlank(ls: seq<LogicalLine>) {
    forall k | 0 <= k < |ls| :: ls[k].raw != ""
  }

  lemma {:induction false} PlacedSplit(a: seq<LogicalLine>, b: seq<LogicalLine>, at: nat)
    requires b != []
    ensures Placed(a + b, at) == Spread(a, at) + Placed(b, at + |Raw(a)|)
  {
    hide FirstLine;
    if a == [] {
      assert a + b == b;
    } else {
      assert (a + b)[1..] == a[1..] + b;
      PlacedSplit(a[1..], b, at + |a[0].raw|);
    }
  }

  lemma {:induction false} SpreadAt(ls: seq<LogicalLine>, at: nat)
    ensures |Spread(ls, at)| == |ls|
    ensures forall k | 0 <= k < |ls| ::
              Spread(ls, at)[k] == Line(at + |Raw(ls[..k])|, at + |Raw(ls[..k + 1])|, ls[k].text)
  {
    if ls != [] {
      var next := at + |ls[0].raw|;
      SpreadAt(ls[1..], next);
      forall k | 0 <= k < |ls|
        ensures Spread(ls, at)[k] == Line(at + |Raw(ls[..k])|, at + |Raw(ls[..k + 1])|, ls[k].text)
      {
        RawStep(ls, k + 1);
        if k == 0 {
          assert ls[1..][..0] == [] && ls[..0] == [];
        } else {
          RawStep(ls, k);
          assert Spread(ls, at)[k] == Spread(ls[1..], next)[k - 1];
        }
      }
    }
  }

  lemma {:induction false} WithinConcat(a: seq<Line>, b: seq<Line>, open: nat, close: nat)
    ensures Within(a + b, open, close) == Within(a, open, close) + Within(b, open, close)
  {
    if a == [] {
      assert a + b == b;
    } else {
      assert (a + b)[1..] == a[1..] + b;
      WithinConcat(a[1..], b, open, close);
    }
  }

  lemma {:induction false} WithinNone(lines: seq<Line>, open: nat, close: nat)
    requires forall k | 0 <= k < |lines| :: !(open <= lines[k].start < close)
    ensures Within(lines, open, close) == []
  {
    if lines != [] { WithinNone(lines[1..], open, close); }
  }

  lemma {:induction false} WithinAll(lines: seq<Line>, open: nat, close: nat)
    requires forall k | 0 <= k < |lines| :: open <= lines[k].start < close
    ensures Within(lines, open, close) == lines
  {
    if lines != [] { WithinAll(lines[1..], open, close); }
  }

  lemma {:induction false} PlacedStarts(ls: seq<LogicalLine>, at: nat)
    ensures forall k | 0 <= k < |Placed(ls, at)| :: Placed(ls, at)[k].start >= at
  {
    hide FirstLine;
    if ls != [] {
      PlacedStarts(ls[1..], at + |ls[0].raw|);
    }
  }

  lemma {:induction false} SpreadBounds(ls: seq<LogicalLine>, at: nat)
    requires NoneBlank(ls)
    ensures forall k | 0 <= k < |Spread(ls, at)| :: at <= Spread(ls, at)[k].start < at + |Raw(ls)|
  {
    if ls != [] {
      SpreadBounds(ls[1..], at + |ls[0].raw|);
    }
  }

  /** The lines inside a host are its body's. */
  lemma WithinHost(before: seq<LogicalLine>, body: seq<LogicalLine>, after: seq<LogicalLine>)
    requires after != [] && NoneBlank(before) && NoneBlank(body)
    ensures var open := |Raw(before)|;
            Within(Placed(before + body + after, 0), open, open + |Raw(body)|) == Spread(body, open)
  {
    hide Placed, Within, Spread, Raw;
    var open, close := |Raw(before)|, |Raw(before)| + |Raw(body)|;
    assert before + body + after == before + (body + after);
    PlacedSplit(before, body + after, 0);
    PlacedSplit(body, after, open);
    var a, b, d := Spread(before, 0), Spread(body, open), Placed(after, close);
    WithinConcat(a, b + d, open, close);
    WithinConcat(b, d, open, close);
    SpreadBounds(before, 0);
    SpreadBounds(body, open);
    PlacedStarts(after, close);
    WithinNone(a, open, close);
    WithinAll(b, open, close);
    WithinNone(d, open, close);
    assert [] + (b + []) == b;
  }

  lemma {:induction false} PositionIsMark(ls: seq<LogicalLine>, at: nat, mark: string)
    ensures Position(Spread(ls, at), mark) == MarkAt(ls, mark)
  {
    hide Trim;
    if ls != [] {
      PositionIsMark(ls[1..], at + |ls[0].raw|, mark);
    }
  }

  lemma SpreadDrop(ls: seq<LogicalLine>, at: nat, n: nat)
    requires n <= |ls|
    ensures |Spread(ls, at)| == |ls|
    ensures Spread(ls, at)[n..] == Spread(ls[n..], at + |Raw(ls[..n])|)
  {
    SpreadAt(ls, at);
    var next := at + |Raw(ls[..n])|;
    SpreadAt(ls[n..], next);
    hide Spread;
    forall k | 0 <= k < |ls| - n
      ensures Spread(ls, at)[n + k] == Spread(ls[n..], next)[k]
    {
      RawPrefix(ls, n, k);
      RawPrefix(ls, n, k + 1);
      assert ls[n..][k] == ls[n + k];
    }
  }

  lemma RawPrefix(ls: seq<LogicalLine>, n: nat, k: nat)
    requires n + k <= |ls|
    ensures |Raw(ls[..n + k])| == |Raw(ls[..n])| + |Raw(ls[n..][..k])|
  {
    hide Raw;
    RawConcat(ls[..n], ls[n..][..k]);
    assert ls[..n + k] == ls[..n] + ls[n..][..k];
  }

  lemma LineAt(ls: seq<LogicalLine>, at: nat, k: nat)
    requires k < |ls|
    ensures k < |Spread(ls, at)|
    ensures Spread(ls, at)[k] == Line(at + |Raw(ls[..k])|, at + |Raw(ls[..k + 1])|, ls[k].text)
  {
    hide Spread, Raw;
    SpreadAt(ls, at);
  }

  /** A range of a body's lines as a span of the text, from where the body starts. */
  function SpanOf(body: seq<LogicalLine>, open: nat, r: Range): Span
    requires r.from <= r.to <= |body|
  {
    Span(open + |Raw(body[..r.from])|, open + |Raw(body[..r.to])|)
  }

  /** The section found in the text is the one found in the lines. */
  lemma SpanIsLocated(body: seq<LogicalLine>, open: nat, begin: string, end: string)
    ensures MarkedSpan(Spread(body, open), begin, end)
         == match Located(body, begin, end) case None => None case Some(r) => Some(SpanOf(body, open, r))
  {
    hide Position, MarkAt, Spread, Marks, Raw;
    PositionIsMark(body, open, begin);
    match MarkAt(body, begin)
    case None =>
    case Some(first) =>
      SpreadDrop(body, open, first);
      PositionIsMark(body[first..], open + |Raw(body[..first])|, end);
      LineAt(body, open, first);
      match MarkAt(body[first..], end)
      case None =>
      case Some(last) => LineAt(body, open, first + last);
  }

  // ---- one host of a file ----

  function Hosts(content: string): seq<VirtualHost> {
    HostsOf(Pieces(Logical(content)), 0)
  }

  lemma {:induction false} HostsConcat(a: seq<Piece>, b: seq<Piece>, at: nat)
    ensures HostsOf(a + b, at) == HostsOf(a, at) + HostsOf(b, at + |Raw(Flatten(a))|)
  {
    hide PieceHosts, PieceLines;
    if a == [] {
      assert a + b == b;
    } else {
      assert (a + b)[1..] == a[1..] + b;
      HostsConcat(a[1..], b, at + |Raw(PieceLines(a[0]))|);
      RawConcat(PieceLines(a[0]), Flatten(a[1..]));
    }
  }

  function HostCount(ps: seq<Piece>): nat {
    if ps == [] then 0 else (if ps[0].Host? then 1 else 0) + HostCount(ps[1..])
  }

  lemma {:induction false} HostsCounted(ps: seq<Piece>, at: nat)
    ensures |HostsOf(ps, at)| == HostCount(ps)
  {
    hide HostOf, PieceLines;
    if ps != [] {
      HostsCounted(ps[1..], at + |Raw(PieceLines(ps[0]))|);
    }
  }

  lemma {:induction false} CountConcat(a: seq<Piece>, b: seq<Piece>)
    ensures HostCount(a + b) == HostCount(a) + HostCount(b)
  {
    if a == [] {
      assert a + b == b;
    } else {
      assert (a + b)[1..] == a[1..] + b;
      CountConcat(a[1..], b);
    }
  }

  /** Where the `i`th host's piece is. */
  function HostAt(ps: seq<Piece>, i: nat): (j: nat)
    requires i < HostCount(ps)
    ensures j < |ps| && ps[j].Host?
  {
    if ps[0].Host? && i == 0 then 0 else 1 + HostAt(ps[1..], if ps[0].Host? then i - 1 else i)
  }

  lemma {:induction false} HostsBefore(ps: seq<Piece>, i: nat)
    requires i < HostCount(ps)
    ensures HostCount(ps[..HostAt(ps, i)]) == i
  {
    var j := HostAt(ps, i);
    if j > 0 {
      HostsBefore(ps[1..], if ps[0].Host? then i - 1 else i);
      assert ps[..j][1..] == ps[1..][..j - 1];
    }
  }

  /** The host a piece is, when the pieces before it are `front`. */
  function HostAfter(front: seq<Piece>, p: Piece): VirtualHost
    requires p.Host?
  {
    HostOf(AddressesOf(p.head), p.body, |Raw(Flatten(front))| + |p.head.raw|)
  }

  /** The host found right after `front`. */
  lemma HostIs(front: seq<Piece>, p: Piece, back: seq<Piece>)
    requires p.Host?
    ensures HostCount(front) < |HostsOf(front + [p] + back, 0)|
    ensures HostsOf(front + [p] + back, 0)[HostCount(front)] == HostAfter(front, p)
  {
    hide HostOf, AddressesOf, Flatten, PieceLines, Raw;
    assert front + [p] + back == front + ([p] + back);
    HostsConcat(front, [p] + back, 0);
    HostsCounted(front, 0);
    HostsCons(p, back, |Raw(Flatten(front))|);
  }

  lemma HostOfPlace(addresses: seq<string>, body: seq<LogicalLine>, open: nat)
    ensures var h := HostOf(addresses, body, open);
            h.open == open && h.close == open + |Raw(body)| && h.names != []
  {
    hide Directives, ServerScope, AddressesTls, Raw, SwitchesTlsOn, NamesOf;
  }

  lemma WellFormedNoneBlank(ls: seq<LogicalLine>)
    requires WellFormed(ls)
    ensures NoneBlank(ls)
  {
    hide FirstLine;
    forall k | 0 <= k < |ls|
      ensures ls[k].raw != ""
    {
      if k < |ls| - 1 { assert Closed(ls[k]); }
    }
  }

  /** The lines of a host, and what is around them. */
  ghost predicate Around(content: string, before: seq<LogicalLine>, body: seq<LogicalLine>, after: seq<LogicalLine>) {
    && after != [] && Logical(content) == before + body + after
    && WellFormed(before + body + after) && content == Raw(before + body + after)
  }

  /** What a host's section is, in the text. */
  lemma LocatedIn(content: string, before: seq<LogicalLine>, body: seq<LogicalLine>, after: seq<LogicalLine>,
                  host: VirtualHost, begin: string, end: string)
    requires Around(content, before, body, after)
    requires host.open == |Raw(before)| && host.close == host.open + |Raw(body)|
    ensures LocateMarked(content, host, begin, end)
         == match Located(body, begin, end) case None => None case Some(r) => Some(SpanOf(body, host.open, r))
  {
    hide Logical, Placed, Within, MarkedSpan, Located, Raw, WellFormed, Spread;
    WellFormedNoneBlank(before + body + after);
    NoneBlankSplit(before, body, after);
    WithinHost(before, body, after);
    SpanIsLocated(body, host.open, begin, end);
  }

  lemma NoneBlankSplit(a: seq<LogicalLine>, b: seq<LogicalLine>, c: seq<LogicalLine>)
    requires NoneBlank(a + b + c)
    ensures NoneBlank(a) && NoneBlank(b)
  {
    forall k | 0 <= k < |a| ensures a[k].raw != "" { assert (a + b + c)[k] == a[k]; }
    forall k | 0 <= k < |b| ensures b[k].raw != "" { assert (a + b + c)[|a| + k] == b[k]; }
  }

  /** Replacing a range of a host's lines in the text. */
  lemma Replaced(content: string, before: seq<LogicalLine>, body: seq<LogicalLine>, after: seq<LogicalLine>,
                 r: Range, block: seq<LogicalLine>)
    requires content == Raw(before + body + after) && r.from <= r.to <= |body|
    ensures var s := SpanOf(body, |Raw(before)|, r);
            && s.start <= s.end <= |content|
            && content[..s.start] + Raw(block) + content[s.end..]
               == Raw(before + (body[..r.from] + block + body[r.to..]) + after)
  {
    hide Raw;
    var a, m, b := body[..r.from], body[r.from..r.to], body[r.to..];
    assert body == a + m + b;
    var front, back := before + a, b + after;
    assert before + body + after == front + (m + back);
    RawConcat(front, m + back);
    RawConcat(m, back);
    RawConcat(before, a);
    RawConcat(a, m);
    assert body[..r.to] == a + m;
    assert content == Raw(front) + (Raw(m) + Raw(back));
    var n := |Raw(front)|;
    assert content[..n] == Raw(front) && content[n + |Raw(m)|..] == Raw(back);
    assert before + (a + block + b) + after == front + (block + back);
    RawConcat(front, block + back);
    RawConcat(block, back);
  }

  /** Writing a block into a host is editing its lines. */
  lemma ApplyEdits(env: Env, content: string, before: seq<LogicalLine>, body: seq<LogicalLine>,
                   after: seq<LogicalLine>, host: VirtualHost, c: Config, tree: Option<Tree>)
    requires Around(content, before, body, after) && SaneEnv(env)
    requires host.open == |Raw(before)| && host.close == host.open + |Raw(body)|
    ensures ApplyBlock(env, content, host, c, tree)
         == match Refusal(env, ForHost(c, host), host, tree)
            case Some(why) => Err(why)
            case None => Ok(Raw(before + Edited(body, OwnLines(env, ForHost(c, host))) + after))
  {
    hide Logical, Raw, WellFormed, LocateMarked, Located, OwnLines, BlockTextOf, Refusal, IsOwnBlock, Compile;
    var narrowed := ForHost(c, host);
    LocatedIn(content, before, body, after, host, BLOCK_BEGIN, BLOCK_END);
    BlockTextIs(env, narrowed);
    var block := OwnLines(env, narrowed);
    match Located(body, BLOCK_BEGIN, BLOCK_END)
    case Some(r) => Replaced(content, before, body, after, r, block);
    case None =>
      Replaced(content, before, body, after, Range(0, 0), block);
      assert body[..0] == [] && body[0..] == body;
      assert Raw([]) == "" by { RawNone(); }
      assert [] + block + body == block + body;
  }

  lemma RawNone()
    ensures Raw([]) == ""
  {
  }

  lemma BlockTextIs(env: Env, c: Config)
    requires SaneEnv(env)
    ensures Raw(OwnLines(env, c)) == match BlockTextOf(env, c) case Some(text) => text case None => ""
  {
    hide Compile, IsOwnBlock, LoggedAll, BlockLines, Written;
    RawNone();
    if Compile(env, c).Some? { CompiledIsOwn(env, c); }
  }
}

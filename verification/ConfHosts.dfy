/** The `<VirtualHost>` sections of an Apache configuration file (`src/apache.rs`). */
module ConfHosts {
  import opened Text
  import opened ConfText
  import opened ConfWords

  // ---- one line ----

  /** A section's opening or closing tag. */
  datatype Tag = Tag(name: string, closing: bool, args: seq<string>)

  function Section(line: string): Option<Tag> {
    var t := Trim(line);
    if t == "" || t[0] != '<' || |t| < 2 || t[|t| - 1] != '>' then None
    else
      var inner := t[1..|t| - 1];
      var closing := StartsWith(inner, "/");
      var parts := Words(if closing then inner[1..] else inner);
      if parts == [] then None else Some(Tag(Lower(parts[0]), closing, parts[1..]))
  }

  /** A directive's name, lowercased, and its arguments. */
  datatype Directive = Directive(name: string, args: seq<string>)

  /** What a logical line is to the scan for sections. */
  datatype Kind = Nothing | Open(name: string, args: seq<string>) | Close(name: string) | Sets(directive: Directive)

  function TextKind(text: string): Kind {
    var t := Trim(text);
    if t == "" || t[0] == '#' then Nothing
    else
      match Section(t)
      case Some(tag) => if tag.closing then Close(tag.name) else Open(tag.name, tag.args)
      case None =>
        var parts := Words(t);
        if parts == [] then Nothing else Sets(Directive(Lower(parts[0]), parts[1..]))
  }

  function KindOf(l: LogicalLine): Kind {
    TextKind(l.text)
  }

  const HOST := "virtualhost"

  predicate OpensHost(l: LogicalLine) {
    var k := KindOf(l);
    k.Open? && k.name == HOST
  }

  /** A line that closes a host when no section is open inside it. */
  predicate ClosesHost(l: LogicalLine) {
    var k := KindOf(l);
    k.Close? && k.name == HOST
  }

  // ---- the sections open inside a host ----

  /** The sections open after a line: a closing tag closes the innermost, whatever its name. */
  function Stack(open: seq<string>, k: Kind): seq<string> {
    match k
    case Open(name, _) => open + [name]
    case Close(_) => if open == [] then [] else open[..|open| - 1]
    case _ => open
  }

  function StackAfter(ls: seq<LogicalLine>, open: seq<string>): seq<string> {
    if ls == [] then open else StackAfter(ls[1..], Stack(open, KindOf(ls[0])))
  }

  /** Whether some line of `ls` closes the host whose sections `open` are open. */
  predicate ClosesIn(ls: seq<LogicalLine>, open: seq<string>) {
    ls != [] && ((open == [] && ClosesHost(ls[0])) || ClosesIn(ls[1..], Stack(open, KindOf(ls[0]))))
  }

  /** Which line of `ls` closes the host. */
  function CloseAt(ls: seq<LogicalLine>, open: seq<string>): (c: nat)
    requires ClosesIn(ls, open)
    ensures c < |ls|
  {
    if open == [] && ClosesHost(ls[0]) then 0 else 1 + CloseAt(ls[1..], Stack(open, KindOf(ls[0])))
  }

  // ---- a file as hosts and what is between them ----

  datatype Piece =
    | Outside(line: LogicalLine)
    | Host(head: LogicalLine, body: seq<LogicalLine>, tail: LogicalLine)
    | Unclosed(head: LogicalLine, rest: seq<LogicalLine>)

  /** A host's section runs to the line that closes it; one that is never closed swallows the
      rest of the file. */
  function Pieces(ls: seq<LogicalLine>): seq<Piece>
    decreases |ls|
  {
    if ls == [] then []
    else if !OpensHost(ls[0]) then [Outside(ls[0])] + Pieces(ls[1..])
    else if !ClosesIn(ls[1..], []) then [Unclosed(ls[0], ls[1..])]
    else
      var c := 1 + CloseAt(ls[1..], []);
      [Host(ls[0], ls[1..c], ls[c])] + Pieces(ls[c + 1..])
  }

  function PieceLines(p: Piece): seq<LogicalLine> {
    match p
    case Outside(line) => [line]
    case Host(head, body, tail) => [head] + body + [tail]
    case Unclosed(head, rest) => [head] + rest
  }

  function Flatten(ps: seq<Piece>): seq<LogicalLine> {
    if ps == [] then [] else PieceLines(ps[0]) + Flatten(ps[1..])
  }

  /** The body of a closed host: it closes every section it opens, and never the host. */
  predicate Body(body: seq<LogicalLine>) {
    !ClosesIn(body, []) && StackAfter(body, []) == []
  }

  /** A piece that reads back as itself whatever follows it. */
  predicate SolidPiece(p: Piece) {
    match p
    case Outside(line) => !OpensHost(line)
    case Host(head, body, tail) => OpensHost(head) && Body(body) && ClosesHost(tail)
    case Unclosed(_, _) => false
  }

  lemma {:induction false} FlattenConcat(front: seq<Piece>, back: seq<Piece>)
    ensures Flatten(front + back) == Flatten(front) + Flatten(back)
  {
    if front == [] {
      assert front + back == back;
    } else {
      assert (front + back)[1..] == front[1..] + back;
      FlattenConcat(front[1..], back);
    }
  }

  // ---- the stack over a concatenation ----

  lemma {:induction false} StackConcat(front: seq<LogicalLine>, back: seq<LogicalLine>, open: seq<string>)
    ensures StackAfter(front + back, open) == StackAfter(back, StackAfter(front, open))
  {
    hide KindOf;
    if front == [] {
      assert front + back == back;
    } else {
      assert (front + back)[1..] == front[1..] + back;
      StackConcat(front[1..], back, Stack(open, KindOf(front[0])));
    }
  }

  lemma {:induction false} ClosesConcat(front: seq<LogicalLine>, back: seq<LogicalLine>, open: seq<string>)
    ensures ClosesIn(front, open) ==>
              ClosesIn(front + back, open) && CloseAt(front + back, open) == CloseAt(front, open)
    ensures !ClosesIn(front, open) ==>
              (ClosesIn(front + back, open) <==> ClosesIn(back, StackAfter(front, open)))
    ensures !ClosesIn(front, open) && ClosesIn(back, StackAfter(front, open)) ==>
              CloseAt(front + back, open) == |front| + CloseAt(back, StackAfter(front, open))
  {
    hide KindOf, ClosesHost;
    if front == [] {
      assert front + back == back;
    } else {
      assert (front + back)[1..] == front[1..] + back;
      ClosesConcat(front[1..], back, Stack(open, KindOf(front[0])));
    }
  }

  /** The lines before the one that closes a host are a body of one. */
  lemma {:induction false} BodyBeforeClose(ls: seq<LogicalLine>, open: seq<string>)
    requires ClosesIn(ls, open)
    ensures var c := CloseAt(ls, open);
            !ClosesIn(ls[..c], open) && StackAfter(ls[..c], open) == [] && ClosesHost(ls[c])
  {
    hide KindOf, ClosesHost;
    var c := CloseAt(ls, open);
    if !(open == [] && ClosesHost(ls[0])) {
      BodyBeforeClose(ls[1..], Stack(open, KindOf(ls[0])));
      assert ls[..c][1..] == ls[1..][..c - 1];
    }
  }

  /** A body and a closing line close a host exactly there. */
  lemma BodyCloses(body: seq<LogicalLine>, tail: LogicalLine, rest: seq<LogicalLine>)
    requires Body(body) && ClosesHost(tail)
    ensures ClosesIn(body + [tail] + rest, []) && CloseAt(body + [tail] + rest, []) == |body|
  {
    hide KindOf;
    assert body + [tail] + rest == body + ([tail] + rest);
    ClosesConcat(body, [tail] + rest, []);
    assert ([tail] + rest)[0] == tail;
  }

  // ---- pieces and lines ----

  /** The first piece, and the lines after it. */
  lemma PiecesStep(ls: seq<LogicalLine>) returns (p: Piece, rest: seq<LogicalLine>)
    requires ls != []
    ensures Pieces(ls) == [p] + Pieces(rest)
    ensures ls == PieceLines(p) + rest && |rest| < |ls|
    ensures SolidPiece(p) || (p.Unclosed? && rest == [])
  {
    hide OpensHost, ClosesHost, KindOf, StackAfter;
    if !OpensHost(ls[0]) {
      p, rest := Outside(ls[0]), ls[1..];
    } else if !ClosesIn(ls[1..], []) {
      p, rest := Unclosed(ls[0], ls[1..]), [];
    } else {
      var c := 1 + CloseAt(ls[1..], []);
      BodyBeforeClose(ls[1..], []);
      assert ls[1..][..c - 1] == ls[1..c];
      p, rest := Host(ls[0], ls[1..c], ls[c]), ls[c + 1..];
      assert ls == [ls[0]] + ls[1..c] + [ls[c]] + ls[c + 1..];
    }
  }

  /** Solid pieces, but perhaps for a host that swallows the rest of the file. */
  ghost predicate Solid(ps: seq<Piece>) {
    forall k | 0 <= k < |ps| :: SolidPiece(ps[k]) || (ps[k].Unclosed? && k == |ps| - 1)
  }

  /** Pieces say all the lines, in order; all but an unclosed last one are solid. */
  lemma {:induction false} FlattenPieces(ls: seq<LogicalLine>)
    ensures Flatten(Pieces(ls)) == ls && Solid(Pieces(ls))
    decreases |ls|
  {
    hide Pieces, SolidPiece, PieceLines;
    if ls == [] {
      NoPieces();
    } else {
      var p, rest := PiecesStep(ls);
      FlattenPieces(rest);
      FlattenCons(p, Pieces(rest));
      if rest == [] { NoPieces(); }
    }
  }

  lemma NoPieces()
    ensures Pieces([]) == [] && Flatten([]) == []
  {
  }

  lemma FlattenCons(p: Piece, ps: seq<Piece>)
    ensures Flatten([p] + ps) == PieceLines(p) + Flatten(ps)
  {
    assert ([p] + ps)[1..] == ps;
  }

  /** A solid piece in front of any lines is the first of their pieces. */
  lemma SolidInFront(p: Piece, rest: seq<LogicalLine>)
    requires SolidPiece(p)
    ensures Pieces(PieceLines(p) + rest) == [p] + Pieces(rest)
  {
    hide OpensHost, ClosesHost, KindOf, Body;
    var ls := PieceLines(p) + rest;
    match p
    case Outside(line) =>
      assert ls[0] == line && ls[1..] == rest;
    case Host(head, body, tail) =>
      BodyCloses(body, tail, rest);
      assert ls[0] == head && ls[1..] == body + [tail] + rest;
      var c := 1 + |body|;
      assert ls[1..c] == body && ls[c] == tail && ls[c + 1..] == rest;
  }

  /** Solid pieces in front of any lines are the first of their pieces: what comes later in a file
      never changes what a scan has made of its beginning. */
  lemma {:induction false} SolidPrefix(ps: seq<Piece>, rest: seq<LogicalLine>)
    requires forall k | 0 <= k < |ps| :: SolidPiece(ps[k])
    ensures Pieces(Flatten(ps) + rest) == ps + Pieces(rest)
  {
    hide SolidPiece, Pieces, PieceLines;
    if ps == [] {
      assert Flatten(ps) + rest == rest;
    } else {
      SolidPrefix(ps[1..], rest);
      SolidInFront(ps[0], Flatten(ps[1..]) + rest);
      assert Flatten(ps) + rest == PieceLines(ps[0]) + (Flatten(ps[1..]) + rest);
      assert ps == [ps[0]] + ps[1..];
    }
  }

  // ---- what a host says of itself ----

  /** A section that only decides whether its lines are read. */
  predicate IsConditional(name: string) {
    name in ["ifmodule", "ifdefine", "ifversion", "iffile", "ifdirective", "ifsection"]
  }

  predicate AllConditional(open: seq<string>) {
    forall k | 0 <= k < |open| :: IsConditional(open[k])
  }

  function DirectiveOf(k: Kind): seq<Directive> {
    if k.Sets? then [k.directive] else []
  }

  /** Every directive, nested sections' included. */
  function Directives(ls: seq<LogicalLine>): seq<Directive> {
    if ls == [] then [] else DirectiveOf(KindOf(ls[0])) + Directives(ls[1..])
  }

  /** The directives that set something for the host as a whole. */
  function ServerScope(ls: seq<LogicalLine>, open: seq<string>): seq<Directive> {
    if ls == [] then []
    else
      var k := KindOf(ls[0]);
      (if AllConditional(open) then DirectiveOf(k) else []) + ServerScope(ls[1..], Stack(open, k))
  }

  /** A host name without its scheme, port or brackets. */
  function BareName(written: string): string {
    var name :=
      match FindText(written, "://")
      case None => written
      case Some(n) => if n + 3 <= |written| then written[n + 3..] else "";
    if StartsWith(name, "[") then Before(name[1..], ']') else Before(name, ':')
  }

  /** The first server name given, if any. */
  function ServerName(ds: seq<Directive>): Option<string> {
    if ds == [] then None
    else if ds[0].name == "servername" && ds[0].args != [] then Some(BareName(ds[0].args[0]))
    else ServerName(ds[1..])
  }

  function BareNames(names: seq<string>): seq<string> {
    if names == [] then [] else [BareName(names[0])] + BareNames(names[1..])
  }

  function Aliases(ds: seq<Directive>): seq<string> {
    if ds == [] then []
    else (if ds[0].name == "serveralias" then BareNames(ds[0].args) else []) + Aliases(ds[1..])
  }

  function SwitchesTlsOn(ds: seq<Directive>): bool {
    ds != [] &&
    ((ds[0].name == "sslengine" && ds[0].args != [] && Lower(ds[0].args[0]) == "on")
     || SwitchesTlsOn(ds[1..]))
  }

  predicate EndsWith(s: string, suffix: string) {
    |suffix| <= |s| && s[|s| - |suffix|..] == suffix
  }

  predicate AddressesTls(addresses: seq<string>) {
    exists k | 0 <= k < |addresses| :: EndsWith(addresses[k], ":443")
  }

  datatype VirtualHost = VirtualHost(
    names: seq<string>, isTls: bool, addresses: seq<string>, open: nat, close: nat,
    directives: seq<Directive>, serverScope: seq<Directive>)

  /** Its names, catch-all when it has none, and every alias. */
  function NamesOf(ds: seq<Directive>): (names: seq<string>)
    ensures names != []
  {
    [match ServerName(ds) case None => "_" case Some(name) => name] + Aliases(ds)
  }

  function Finished(host: VirtualHost): VirtualHost {
    host.(names := NamesOf(host.directives), isTls := host.isTls || SwitchesTlsOn(host.directives))
  }

  /** What a host's opening line and body say, and where in the text the body is. */
  function HostOf(addresses: seq<string>, body: seq<LogicalLine>, open: nat): VirtualHost {
    Finished(VirtualHost([], AddressesTls(addresses), addresses, open, open + |Raw(body)|,
                         Directives(body), ServerScope(body, [])))
  }

  function AddressesOf(head: LogicalLine): seq<string> {
    var k := KindOf(head);
    if k.Open? then k.args else []
  }

  function PieceHosts(p: Piece, at: nat): seq<VirtualHost> {
    if p.Host? then [HostOf(AddressesOf(p.head), p.body, at + |p.head.raw|)] else []
  }

  /** The hosts of pieces whose first starts at `at`. */
  function HostsOf(ps: seq<Piece>, at: nat): seq<VirtualHost> {
    if ps == [] then [] else PieceHosts(ps[0], at) + HostsOf(ps[1..], at + |Raw(PieceLines(ps[0]))|)
  }

  // ---- the scan ----

  /** The host being read, and the sections open inside it. */
  datatype Current = Current(host: VirtualHost, open: seq<string>)

  function With(c: Current, k: Kind): Current {
    var d := DirectiveOf(k);
    Current(c.host.(directives := c.host.directives + d,
                    serverScope := c.host.serverScope + (if AllConditional(c.open) then d else [])),
            Stack(c.open, k))
  }

  /** What the scan has found, and what it is in the middle of. */
  datatype Scan = Scan(hosts: seq<VirtualHost>, current: Option<Current>)

  function ScanLine(s: Scan, line: Line): Scan {
    var k := TextKind(line.text);
    match s.current
    case None =>
      if k.Open? && k.name == HOST then
        Scan(s.hosts, Some(Current(
          VirtualHost([], AddressesTls(k.args), k.args, line.end, line.end, [], []), [])))
      else s
    case Some(c) =>
      if k.Close? && k.name == HOST && c.open == [] then
        Scan(s.hosts + [Finished(c.host.(close := line.start))], None)
      else Scan(s.hosts, Some(With(c, k)))
  }

  function ScanLines(s: Scan, lines: seq<Line>): Scan
    decreases |lines|
  {
    if lines == [] then s else ScanLines(ScanLine(s, lines[0]), lines[1..])
  }

  /** Every `<VirtualHost>` in a text, in order. */
  method VirtualHosts(content: string) returns (hosts: seq<VirtualHost>)
    ensures hosts == HostsOf(Pieces(Logical(content)), 0)
  {
    var lines := ConfText.Lines(content);
    var s := Scan([], None);
    for k := 0 to |lines|
      invariant ScanLines(s, lines[k..]) == ScanLines(Scan([], None), lines)
    {
      assert lines[k..][1..] == lines[k + 1..];
      s := ScanLine(s, lines[k]);
    }
    hosts := s.hosts;
    ScanFindsHosts([], Logical(content), 0);
  }

  /** The first line the scan sees, unless it is one cut off with no text. */
  lemma PlacedStep(ls: seq<LogicalLine>, at: nat)
    requires ls != []
    ensures || Placed(ls, at) == [Line(at, at + |ls[0].raw|, ls[0].text)]
                                 + Placed(ls[1..], at + |ls[0].raw|)
            || (Placed(ls, at) == [] && ls[1..] == [] && KindOf(ls[0]) == Nothing)
  {
    hide FirstLine;
  }

  /** What a host has become once `ls` is read into it. */
  function Read(c: Current, ls: seq<LogicalLine>, close: nat): VirtualHost {
    Finished(c.host.(directives := c.host.directives + Directives(ls),
                     serverScope := c.host.serverScope + ServerScope(ls, c.open),
                     close := close))
  }

  lemma ReadStep(c: Current, ls: seq<LogicalLine>, close: nat)
    requires ls != []
    ensures Read(c, ls, close) == Read(With(c, KindOf(ls[0])), ls[1..], close)
  {
    hide KindOf, Finished, AllConditional;
    var d, k := DirectiveOf(KindOf(ls[0])), KindOf(ls[0]);
    assert c.host.directives + (d + Directives(ls[1..])) == (c.host.directives + d) + Directives(ls[1..]);
    var e := if AllConditional(c.open) then d else [];
    var rest := ServerScope(ls[1..], Stack(c.open, k));
    assert c.host.serverScope + (e + rest) == (c.host.serverScope + e) + rest;
  }

  lemma RawStep(ls: seq<LogicalLine>, c: nat)
    requires 0 < c <= |ls|
    ensures |Raw(ls[..c])| == |ls[0].raw| + |Raw(ls[1..][..c - 1])|
  {
    assert ls[..c][1..] == ls[1..][..c - 1];
  }

  /** Inside a host, the scan reads on to the line that closes it, or to the end. */
  ghost predicate ReadsOn(hosts: seq<VirtualHost>, cur: Current, ls: seq<LogicalLine>, at: nat) {
    var end := ScanLines(Scan(hosts, Some(cur)), Placed(ls, at));
    if ClosesIn(ls, cur.open) then
      var c := CloseAt(ls, cur.open);
      end == ScanLines(Scan(hosts + [Read(cur, ls[..c], at + |Raw(ls[..c])|)], None),
                       Placed(ls[c + 1..], at + |Raw(ls[..c + 1])|))
    else end.hosts == hosts
  }

  lemma {:induction false} ScanInside(hosts: seq<VirtualHost>, cur: Current, ls: seq<LogicalLine>, at: nat)
    ensures ReadsOn(hosts, cur, ls, at)
    decreases |ls|
  {
    if ls == [] {
    } else if Placed(ls, at) == [] {
      ScanOfNothing(hosts, cur, ls, at);
    } else {
      hide Placed, TextKind, ReadsOn, With;
      PlacedStep(ls, at);
      if cur.open == [] && ClosesHost(ls[0]) {
        ScanCloses(hosts, cur, ls, at);
      } else {
        ScanInside(hosts, With(cur, KindOf(ls[0])), ls[1..], at + |ls[0].raw|);
        ScanGoesOn(hosts, cur, ls, at);
      }
    }
  }

  lemma ScanOfNothing(hosts: seq<VirtualHost>, cur: Current, ls: seq<LogicalLine>, at: nat)
    requires ls != [] && Placed(ls, at) == []
    ensures ReadsOn(hosts, cur, ls, at)
  {
    PlacedStep(ls, at);
    hide Placed;
    assert !ClosesIn(ls[1..], Stack(cur.open, Nothing));
  }

  lemma ScanCloses(hosts: seq<VirtualHost>, cur: Current, ls: seq<LogicalLine>, at: nat)
    requires ls != [] && cur.open == [] && ClosesHost(ls[0])
    requires Placed(ls, at) == [Line(at, at + |ls[0].raw|, ls[0].text)] + Placed(ls[1..], at + |ls[0].raw|)
    ensures ReadsOn(hosts, cur, ls, at)
  {
    hide Placed, TextKind, Finished;
    RawStep(ls, 1);
    assert ls[1..][..0] == [] && ls[..0] == [];
    assert cur.host.directives + [] == cur.host.directives;
    assert cur.host.serverScope + [] == cur.host.serverScope;
  }

  /** The scan takes one step, and ends up where it would from there. */
  lemma ScanGoesOn(hosts: seq<VirtualHost>, cur: Current, ls: seq<LogicalLine>, at: nat)
    requires ls != [] && !(cur.open == [] && ClosesHost(ls[0]))
    requires Placed(ls, at) == [Line(at, at + |ls[0].raw|, ls[0].text)] + Placed(ls[1..], at + |ls[0].raw|)
    requires ReadsOn(hosts, With(cur, KindOf(ls[0])), ls[1..], at + |ls[0].raw|)
    ensures ReadsOn(hosts, cur, ls, at)
  {
    hide *;
    var next := With(cur, KindOf(ls[0]));
    ScanOneLine(hosts, cur, ls, at);
    CloseStep(ls, cur.open);
    if ClosesIn(ls, cur.open) {
      var c := CloseAt(ls[1..], next.open);
      RawStep(ls, c + 1);
      RawStep(ls, c + 2);
      ReadStep(cur, ls[..c + 1], at + |Raw(ls[..c + 1])|);
      assert ls[..c + 1][1..] == ls[1..][..c] && ls[1..][..c + 1] == ls[1..c + 2];
      assert ls[c + 2..] == ls[1..][c + 1..];
      assert ls[..c + 1][0] == ls[0];
      ReadsOnClosed(hosts, next, ls[1..], at + |ls[0].raw|);
      ReadsOnWhenClosed(hosts, cur, ls, at);
    } else {
      ReadsOnUnclosed(hosts, next, ls[1..], at + |ls[0].raw|);
      ReadsOnWhenUnclosed(hosts, cur, ls, at);
    }
  }

  lemma ScanOneLine(hosts: seq<VirtualHost>, cur: Current, ls: seq<LogicalLine>, at: nat)
    requires ls != [] && !(cur.open == [] && ClosesHost(ls[0]))
    requires Placed(ls, at) == [Line(at, at + |ls[0].raw|, ls[0].text)] + Placed(ls[1..], at + |ls[0].raw|)
    ensures var next := With(cur, KindOf(ls[0]));
            && next.open == Stack(cur.open, KindOf(ls[0]))
            && ScanLines(Scan(hosts, Some(cur)), Placed(ls, at))
               == ScanLines(Scan(hosts, Some(next)), Placed(ls[1..], at + |ls[0].raw|))
  {
    hide Placed, TextKind;
  }

  lemma CloseStep(ls: seq<LogicalLine>, open: seq<string>)
    requires ls != [] && !(open == [] && ClosesHost(ls[0]))
    ensures ClosesIn(ls, open) <==> ClosesIn(ls[1..], Stack(open, KindOf(ls[0])))
    ensures ClosesIn(ls, open) ==> CloseAt(ls, open) == 1 + CloseAt(ls[1..], Stack(open, KindOf(ls[0])))
  {
    hide KindOf, ClosesHost;
  }

  lemma ReadsOnWhenClosed(hosts: seq<VirtualHost>, cur: Current, ls: seq<LogicalLine>, at: nat)
    requires ClosesIn(ls, cur.open)
    requires var c := CloseAt(ls, cur.open);
             ScanLines(Scan(hosts, Some(cur)), Placed(ls, at))
             == ScanLines(Scan(hosts + [Read(cur, ls[..c], at + |Raw(ls[..c])|)], None),
                          Placed(ls[c + 1..], at + |Raw(ls[..c + 1])|))
    ensures ReadsOn(hosts, cur, ls, at)
  {
    hide ScanLines, Placed, Raw, Read, ClosesIn, CloseAt;
  }

  lemma ReadsOnWhenUnclosed(hosts: seq<VirtualHost>, cur: Current, ls: seq<LogicalLine>, at: nat)
    requires !ClosesIn(ls, cur.open) && ScanLines(Scan(hosts, Some(cur)), Placed(ls, at)).hosts == hosts
    ensures ReadsOn(hosts, cur, ls, at)
  {
    hide ScanLines, Placed, ClosesIn;
  }

  /** The scan's one pass finds the hosts of the pieces. */
  lemma {:induction false} ScanFindsHosts(hosts: seq<VirtualHost>, ls: seq<LogicalLine>, at: nat)
    ensures ScanLines(Scan(hosts, None), Placed(ls, at)).hosts == hosts + HostsOf(Pieces(ls), at)
    decreases |ls|
  {
    hide Placed, TextKind, Pieces, HostsOf, ReadsOn, ClosesIn;
    if ls == [] {
      ScanNothing(hosts, at);
    } else {
      PlacedStep(ls, at);
      if Placed(ls, at) == [] {
        CutLineIsOutside(hosts, ls, at);
      } else if !OpensHost(ls[0]) {
        ScanFindsHosts(hosts, ls[1..], at + |ls[0].raw|);
        ScanPasses(hosts, ls, at);
      } else {
        var start := at + |ls[0].raw|;
        ScanInside(hosts, Started(ls[0], start), ls[1..], start);
        if ClosesIn(ls[1..], []) {
          var c := 1 + CloseAt(ls[1..], []);
          var host := HostOf(AddressesOf(ls[0]), ls[1..c], start);
          ScanFindsHosts(hosts + [host], ls[c + 1..], at + |Raw(ls[..c + 1])|);
        }
        ScanEnters(hosts, ls, at);
      }
    }
  }

  lemma ScanNothing(hosts: seq<VirtualHost>, at: nat)
    ensures ScanLines(Scan(hosts, None), Placed([], at)).hosts == hosts + HostsOf(Pieces([]), at)
  {
  }

  lemma CutLineIsOutside(hosts: seq<VirtualHost>, ls: seq<LogicalLine>, at: nat)
    requires ls != [] && ls[1..] == [] && KindOf(ls[0]) == Nothing && Placed(ls, at) == []
    ensures ScanLines(Scan(hosts, None), Placed(ls, at)).hosts == hosts + HostsOf(Pieces(ls), at)
  {
    hide Placed, TextKind;
    assert Pieces(ls) == [Outside(ls[0])];
    assert [Outside(ls[0])][1..] == [];
  }

  lemma ScanPasses(hosts: seq<VirtualHost>, ls: seq<LogicalLine>, at: nat)
    requires ls != [] && !OpensHost(ls[0])
    requires Placed(ls, at) == [Line(at, at + |ls[0].raw|, ls[0].text)] + Placed(ls[1..], at + |ls[0].raw|)
    ensures ScanLines(Scan(hosts, None), Placed(ls, at))
         == ScanLines(Scan(hosts, None), Placed(ls[1..], at + |ls[0].raw|))
    ensures HostsOf(Pieces(ls), at) == HostsOf(Pieces(ls[1..]), at + |ls[0].raw|)
  {
    hide Placed, TextKind;
    var p := Outside(ls[0]);
    assert Pieces(ls) == [p] + Pieces(ls[1..]);
    assert ([p] + Pieces(ls[1..]))[1..] == Pieces(ls[1..]);
    assert Raw(PieceLines(p)) == ls[0].raw + Raw([]);
  }

  /** The scan just inside a host. */
  function Started(head: LogicalLine, start: nat): Current {
    Current(VirtualHost([], AddressesTls(AddressesOf(head)), AddressesOf(head), start, start, [], []), [])
  }

  lemma ScanEnters(hosts: seq<VirtualHost>, ls: seq<LogicalLine>, at: nat)
    requires ls != [] && OpensHost(ls[0])
    requires Placed(ls, at) == [Line(at, at + |ls[0].raw|, ls[0].text)] + Placed(ls[1..], at + |ls[0].raw|)
    requires ReadsOn(hosts, Started(ls[0], at + |ls[0].raw|), ls[1..], at + |ls[0].raw|)
    requires ClosesIn(ls[1..], []) ==>
               var c := 1 + CloseAt(ls[1..], []);
               var found := hosts + [HostOf(AddressesOf(ls[0]), ls[1..c], at + |ls[0].raw|)];
               ScanLines(Scan(found, None), Placed(ls[c + 1..], at + |Raw(ls[..c + 1])|)).hosts
               == found + HostsOf(Pieces(ls[c + 1..]), at + |Raw(ls[..c + 1])|)
    ensures ScanLines(Scan(hosts, None), Placed(ls, at)).hosts == hosts + HostsOf(Pieces(ls), at)
  {
    hide *;
    EnterStep(hosts, ls, at);
    var start := at + |ls[0].raw|;
    var cur := Started(ls[0], start);
    if ClosesIn(ls[1..], []) {
      HostsOfClosed(ls, at);
      ReadHost(ls, at);
      ReadsOnClosed(hosts, cur, ls[1..], start);
      var c := 1 + CloseAt(ls[1..], []);
      var host := HostOf(AddressesOf(ls[0]), ls[1..c], start);
      var rest := HostsOf(Pieces(ls[c + 1..]), at + |Raw(ls[..c + 1])|);
      assert hosts + [host] + rest == hosts + ([host] + rest);
    } else {
      HostsOfUnclosed(ls, at);
      ReadsOnUnclosed(hosts, cur, ls[1..], start);
    }
  }

  lemma ReadsOnClosed(hosts: seq<VirtualHost>, cur: Current, ls: seq<LogicalLine>, at: nat)
    requires ReadsOn(hosts, cur, ls, at) && ClosesIn(ls, cur.open)
    ensures var c := CloseAt(ls, cur.open);
            ScanLines(Scan(hosts, Some(cur)), Placed(ls, at))
            == ScanLines(Scan(hosts + [Read(cur, ls[..c], at + |Raw(ls[..c])|)], None),
                         Placed(ls[c + 1..], at + |Raw(ls[..c + 1])|))
  {
    hide ScanLines, Placed, Raw, Read, ClosesIn, CloseAt;
  }

  lemma ReadsOnUnclosed(hosts: seq<VirtualHost>, cur: Current, ls: seq<LogicalLine>, at: nat)
    requires ReadsOn(hosts, cur, ls, at) && !ClosesIn(ls, cur.open)
    ensures ScanLines(Scan(hosts, Some(cur)), Placed(ls, at)).hosts == hosts
  {
  }

  lemma EnterStep(hosts: seq<VirtualHost>, ls: seq<LogicalLine>, at: nat)
    requires ls != [] && OpensHost(ls[0])
    requires Placed(ls, at) == [Line(at, at + |ls[0].raw|, ls[0].text)] + Placed(ls[1..], at + |ls[0].raw|)
    ensures ScanLines(Scan(hosts, None), Placed(ls, at))
         == ScanLines(Scan(hosts, Some(Started(ls[0], at + |ls[0].raw|))), Placed(ls[1..], at + |ls[0].raw|))
    ensures Started(ls[0], at + |ls[0].raw|).open == []
  {
    hide Placed, TextKind;
  }

  lemma HostsOfUnclosed(ls: seq<LogicalLine>, at: nat)
    requires ls != [] && OpensHost(ls[0]) && !ClosesIn(ls[1..], [])
    ensures HostsOf(Pieces(ls), at) == []
  {
    hide OpensHost, ClosesIn;
    assert Pieces(ls) == [Unclosed(ls[0], ls[1..])];
    assert [Unclosed(ls[0], ls[1..])][1..] == [];
  }

  lemma HostsOfClosed(ls: seq<LogicalLine>, at: nat)
    requires ls != [] && OpensHost(ls[0]) && ClosesIn(ls[1..], [])
    ensures var c := 1 + CloseAt(ls[1..], []);
            HostsOf(Pieces(ls), at)
            == [HostOf(AddressesOf(ls[0]), ls[1..c], at + |ls[0].raw|)]
               + HostsOf(Pieces(ls[c + 1..]), at + |Raw(ls[..c + 1])|)
  {
    hide OpensHost, ClosesIn, CloseAt, Pieces, PieceLines, HostOf, AddressesOf, Raw, HostsOf;
    var c := 1 + CloseAt(ls[1..], []);
    ClosedHostFirst(ls);
    HostsCons(Host(ls[0], ls[1..c], ls[c]), Pieces(ls[c + 1..]), at);
  }

  lemma ClosedHostFirst(ls: seq<LogicalLine>)
    requires ls != [] && OpensHost(ls[0]) && ClosesIn(ls[1..], [])
    ensures var c := 1 + CloseAt(ls[1..], []);
            var p := Host(ls[0], ls[1..c], ls[c]);
            Pieces(ls) == [p] + Pieces(ls[c + 1..]) && PieceLines(p) == ls[..c + 1]
  {
    hide OpensHost, ClosesIn, CloseAt, Pieces;
    ClosedPieces(ls);
    var c := 1 + CloseAt(ls[1..], []);
    assert ls[..c + 1] == [ls[0]] + ls[1..c] + [ls[c]];
  }

  lemma ClosedPieces(ls: seq<LogicalLine>)
    requires ls != [] && OpensHost(ls[0]) && ClosesIn(ls[1..], [])
    ensures var c := 1 + CloseAt(ls[1..], []);
            Pieces(ls) == [Host(ls[0], ls[1..c], ls[c])] + Pieces(ls[c + 1..])
  {
    hide OpensHost, ClosesIn, CloseAt, PieceLines;
  }

  lemma HostsCons(p: Piece, ps: seq<Piece>, at: nat)
    ensures HostsOf([p] + ps, at) == PieceHosts(p, at) + HostsOf(ps, at + |Raw(PieceLines(p))|)
  {
    hide PieceHosts, PieceLines;
    assert ([p] + ps)[1..] == ps;
  }

  lemma ReadHost(ls: seq<LogicalLine>, at: nat)
    requires ls != [] && ClosesIn(ls[1..], [])
    ensures var start, c := at + |ls[0].raw|, 1 + CloseAt(ls[1..], []);
            && Read(Started(ls[0], start), ls[1..][..c - 1], start + |Raw(ls[1..][..c - 1])|)
               == HostOf(AddressesOf(ls[0]), ls[1..c], start)
            && ls[1..][c..] == ls[c + 1..]
            && start + |Raw(ls[1..][..c])| == at + |Raw(ls[..c + 1])|
  {
    hide Finished, Directives, ServerScope, ClosesIn, CloseAt, AddressesOf, AddressesTls;
    var start, c := at + |ls[0].raw|, 1 + CloseAt(ls[1..], []);
    assert ls[1..][..c - 1] == ls[1..c];
    RawStep(ls, c + 1);
    hide Raw;
    assert [] + Directives(ls[1..c]) == Directives(ls[1..c]);
    assert [] + ServerScope(ls[1..c], []) == ServerScope(ls[1..c], []);
  }

  // ---- what a host says, one line at a time ----

  /** A host is known by the first server name with an argument. */
  lemma {:induction false} ServerNameIs(ds: seq<Directive>)
    ensures match ServerName(ds)
            case None => forall k | 0 <= k < |ds| :: ds[k].name == "servername" ==> ds[k].args == []
            case Some(name) =>
              exists k | 0 <= k < |ds| ::
                && ds[k].name == "servername" && ds[k].args != [] && name == BareName(ds[k].args[0])
                && forall j | 0 <= j < k :: ds[j].name == "servername" ==> ds[j].args == []
  {
    hide BareName;
    if ds != [] && !(ds[0].name == "servername" && ds[0].args != []) {
      ServerNameIs(ds[1..]);
      assert ds == [ds[0]] + ds[1..];
      if ServerName(ds[1..]).Some? {
        var k :| 0 <= k < |ds[1..]| && ds[1..][k].name == "servername" && ds[1..][k].args != []
                 && ServerName(ds[1..]).value == BareName(ds[1..][k].args[0])
                 && forall j | 0 <= j < k :: ds[1..][j].name == "servername" ==> ds[1..][j].args == [];
        assert ds[k + 1] == ds[1..][k];
      }
    }
  }

  lemma {:induction false} BareNamesAre(names: seq<string>)
    ensures |BareNames(names)| == |names| && forall k | 0 <= k < |names| :: BareNames(names)[k] == BareName(names[k])
  {
    hide BareName;
    if names != [] { BareNamesAre(names[1..]); }
  }

  ghost predicate IsAlias(ds: seq<Directive>, name: string) {
    exists k, j | 0 <= k < |ds| && 0 <= j < |ds[k].args| :: ds[k].name == "serveralias" && name == BareName(ds[k].args[j])
  }

  /** And by every argument of every alias line. */
  lemma {:induction false} AliasesAre(ds: seq<Directive>, name: string)
    ensures name in Aliases(ds) <==> IsAlias(ds, name)
  {
    hide BareName;
    if ds != [] {
      AliasesAre(ds[1..], name);
      assert ds == [ds[0]] + ds[1..];
      BareNamesAre(ds[0].args);
      if name in BareNames(ds[0].args) {
        var j :| 0 <= j < |ds[0].args| && BareNames(ds[0].args)[j] == name;
      }
      if IsAlias(ds[1..], name) {
        var k, j :| 0 <= k < |ds[1..]| && 0 <= j < |ds[1..][k].args| && ds[1..][k].name == "serveralias" && name == BareName(ds[1..][k].args[j]);
        assert ds[k + 1] == ds[1..][k];
      }
    }
  }

  lemma {:induction false} SwitchesTlsOnIs(ds: seq<Directive>)
    ensures SwitchesTlsOn(ds)
       <==> exists k | 0 <= k < |ds| :: ds[k].name == "sslengine" && ds[k].args != [] && Lower(ds[k].args[0]) == "on"
  {
    hide Lower;
    if ds != [] {
      SwitchesTlsOnIs(ds[1..]);
      assert ds == [ds[0]] + ds[1..];
      if SwitchesTlsOn(ds[1..]) {
        var k :| 0 <= k < |ds[1..]| && ds[1..][k].name == "sslengine" && ds[1..][k].args != [] && Lower(ds[1..][k].args[0]) == "on";
        assert ds[k + 1] == ds[1..][k];
      }
    }
  }

  /** What a host is taken for: its first name, or the catch-all; and TLS when an address of its is
      on port 443 or some line switches the engine on. */
  lemma HostSays(addresses: seq<string>, body: seq<LogicalLine>, open: nat)
    ensures var h, ds := HostOf(addresses, body, open), Directives(body);
            && h.addresses == addresses && h.names != []
            && (h.isTls <==>
                  ((exists k | 0 <= k < |addresses| :: |addresses[k]| >= 4 && addresses[k][|addresses[k]| - 4..] == ":443")
                   || (exists k | 0 <= k < |ds| :: ds[k].name == "sslengine" && ds[k].args != [] && Lower(ds[k].args[0]) == "on")))
            && (h.names[0] == match ServerName(ds) case None => "_" case Some(name) => name)
            && (forall name :: name in h.names[1..] <==> IsAlias(ds, name))
  {
    hide Directives, ServerScope, Lower, ServerName, Aliases, BareName, Raw;
    var ds := Directives(body);
    SwitchesTlsOnIs(ds);
    forall name
      ensures name in Aliases(ds) <==> IsAlias(ds, name)
    {
      AliasesAre(ds, name);
    }
    TlsAddresses(addresses);
  }

  lemma TlsAddresses(addresses: seq<string>)
    ensures AddressesTls(addresses)
       <==> exists k | 0 <= k < |addresses| :: |addresses[k]| >= 4 && addresses[k][|addresses[k]| - 4..] == ":443"
  {
    assert |":443"| == 4;
  }

  /** A name is read without its port, its scheme, or the brackets of an address. */
  lemma BareNameReads(scheme: string, name: string, port: string)
    requires ':' !in scheme && ':' !in name && '[' !in name && ':' !in port && '/' !in port
    ensures BareName(name) == name && BareName(name + ":" + port) == name
    ensures BareName(scheme + "://" + name) == name && BareName(scheme + "://" + (name + ":" + port)) == name
  {
    hide FindText;
    var whole := name + ":" + port;
    NoScheme(name);
    NoScheme(whole);
    BeforeIs(name, ':', port);
    assert whole == name + [':'] + port;
    SchemeAt(scheme, name);
    SchemeAt(scheme, whole);
    assert (scheme + "://" + name)[|scheme| + 3..] == name;
    assert (scheme + "://" + whole)[|scheme| + 3..] == whole;
    if name != "" { assert name[0] in name && whole[0] == name[0]; }
  }

  lemma NoScheme(s: string)
    requires forall k | 0 <= k < |s| - 1 && s[k] == ':' :: s[k + 1] != '/'
    ensures FindText(s, "://") == None
  {
    FindTextIs(s, "://");
    forall k | 0 <= k <= |s|
      ensures !StartsWith(s[k..], "://")
    {
      if k < |s| - 1 { assert s[k..][0] == s[k] && s[k..][1] == s[k + 1]; }
    }
  }

  lemma SchemeAt(scheme: string, rest: string)
    requires ':' !in scheme
    ensures FindText(scheme + "://" + rest, "://") == Some(|scheme|)
  {
    var s := scheme + "://" + rest;
    FindTextIs(s, "://");
    assert s[|scheme|..] == "://" + rest;
    forall k | 0 <= k < |scheme|
      ensures !StartsWith(s[k..], "://")
    {
      assert s[k..][0] == scheme[k] && scheme[k] in scheme;
    }
  }

  /** An address in brackets is read whole. */
  lemma BracketsRead(address: string, rest: string)
    requires ']' !in address && FindText("[" + address + "]" + rest, "://") == None
    ensures BareName("[" + address + "]" + rest) == address
  {
    hide FindText;
    var s := "[" + address + "]" + rest;
    assert s[1..] == address + [']'] + rest;
    BeforeIs(address, ']', rest);
  }

  lemma {:induction false} ScopeSplits(a: seq<LogicalLine>, b: seq<LogicalLine>, open: seq<string>)
    ensures ServerScope(a + b, open) == ServerScope(a, open) + ServerScope(b, StackAfter(a, open))
  {
    hide KindOf, AllConditional, Stack;
    if a == [] {
      assert a + b == b;
    } else {
      assert (a + b)[1..] == a[1..] + b;
      ScopeSplits(a[1..], b, Stack(open, KindOf(a[0])));
    }
  }

  /** A line sets something for the host as a whole exactly when every section it is in only decides
      whether it is read. */
  lemma ScopeOfLine(before: seq<LogicalLine>, l: LogicalLine, after: seq<LogicalLine>)
    ensures var open := StackAfter(before, []);
            var more := StackAfter(before + [l], []);
            ServerScope(before + [l] + after, [])
            == ServerScope(before, [])
               + (if forall k | 0 <= k < |open| :: open[k] in {"ifmodule", "ifdefine", "ifversion", "iffile", "ifdirective", "ifsection"}
                  then DirectiveOf(KindOf(l)) else [])
               + ServerScope(after, more)
  {
    hide KindOf, Stack;
    ScopeSplits(before + [l], after, []);
    ScopeSplits(before, [l], []);
    assert [l][1..] == [];
    assert ServerScope([l], StackAfter(before, [])) == (if AllConditional(StackAfter(before, [])) then DirectiveOf(KindOf(l)) else []) + [];
  }
}

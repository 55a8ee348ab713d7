/** What writing blocks keeps, what taking them out undoes, and what writing again changes
    (`src/apache.rs`). */
module ApplyTheorems {
  import opened Text
  import opened ConfText
  import opened ConfWords
  import opened ConfHosts
  import opened BlockConfig
  import opened RewriteProgram
  import opened BlockText
  import opened OwnBlock
  import opened BlockEdits
  import opened ApplyBlocks

  // ---- lines that change nothing around them ----

  ghost predicate Neutral(ls: seq<LogicalLine>) {
    && AllClosed(ls) && Balanced(ls)
    && forall k | 0 <= k < |ls| :: Quiet(ls[k])
  }

  lemma OwnIsNeutral(ls: seq<LogicalLine>)
    requires IsOwnBlock(ls)
    ensures Neutral(ls)
  {
    hide Closed, Quiet, Balanced, Marks;
  }

  lemma NothingIsNeutral()
    ensures Neutral([])
  {
  }

  lemma {:induction false} QuietNeverCloses(ls: seq<LogicalLine>, open: seq<string>)
    requires forall k | 0 <= k < |ls| :: Quiet(ls[k])
    ensures !ClosesIn(ls, open)
  {
    hide KindOf, Marks, QuietDirective, Stack;
    if ls != [] {
      assert Quiet(ls[0]);
      QuietNeverCloses(ls[1..], Stack(open, KindOf(ls[0])));
    }
  }

  /** Neutral lines can stand in for others in a host's body. */
  lemma SwapInBody(a: seq<LogicalLine>, r: seq<LogicalLine>, n: seq<LogicalLine>, x: seq<LogicalLine>)
    requires Body(a + r + n) && Neutral(r) && Neutral(x)
    ensures Body(a + x + n)
  {
    hide Quiet, ClosesIn, StackAfter, AllClosed, CloseAt;
    assert a + r + n == a + (r + n) && a + x + n == a + (x + n);
    var open := StackAfter(a, []);
    ClosesConcat(a, r + n, []);
    ClosesConcat(r, n, open);
    QuietNeverCloses(r, open);
    StackConcat(a, r + n, []);
    StackConcat(r, n, open);
    assert StackAfter(r, open) == open;
    ClosesConcat(a, x + n, []);
    ClosesConcat(x, n, open);
    QuietNeverCloses(x, open);
    StackConcat(a, x + n, []);
    StackConcat(x, n, open);
    assert StackAfter(x, open) == open;
  }

  // ---- what a host says of itself ----

  ghost predicate AllQuiet(ds: seq<Directive>) {
    forall k | 0 <= k < |ds| :: QuietDirective(ds[k])
  }

  lemma {:induction false} DirectivesConcat(a: seq<LogicalLine>, b: seq<LogicalLine>)
    ensures Directives(a + b) == Directives(a) + Directives(b)
  {
    hide KindOf;
    if a == [] {
      assert a + b == b;
    } else {
      assert (a + b)[1..] == a[1..] + b;
      DirectivesConcat(a[1..], b);
    }
  }

  lemma {:induction false} QuietLinesSayLittle(ls: seq<LogicalLine>, open: seq<string>)
    requires forall k | 0 <= k < |ls| :: Quiet(ls[k])
    ensures AllQuiet(Directives(ls)) && AllQuiet(ServerScope(ls, open))
  {
    hide KindOf, Marks, QuietDirective, OpensHost, ClosesHost, AllConditional, Stack;
    if ls != [] {
      assert Quiet(ls[0]);
      QuietLinesSayLittle(ls[1..], Stack(open, KindOf(ls[0])));
    }
  }

  lemma {:induction false} QuietInFront(q: seq<Directive>, ds: seq<Directive>)
    requires AllQuiet(q)
    ensures ServerName(q + ds) == ServerName(ds) && Aliases(q + ds) == Aliases(ds)
    ensures SwitchesTlsOn(q + ds) == SwitchesTlsOn(ds)
  {
    hide BareNames, BareName, Lower;
    if q == [] {
      assert q + ds == ds;
    } else {
      assert QuietDirective(q[0]);
      assert (q + ds)[1..] == q[1..] + ds;
      QuietInFront(q[1..], ds);
    }
  }

  /** Quiet directives anywhere leave a host's names and TLS alone. */
  lemma {:induction false} QuietInside(a: seq<Directive>, q: seq<Directive>, ds: seq<Directive>)
    requires AllQuiet(q)
    ensures ServerName(a + (q + ds)) == ServerName(a + ds) && Aliases(a + (q + ds)) == Aliases(a + ds)
    ensures SwitchesTlsOn(a + (q + ds)) == SwitchesTlsOn(a + ds)
  {
    hide BareNames, BareName, Lower, QuietDirective;
    if a == [] {
      QuietInFront(q, ds);
      assert a + (q + ds) == q + ds && a + ds == ds;
    } else {
      assert (a + (q + ds))[1..] == a[1..] + (q + ds) && (a + ds)[1..] == a[1..] + ds;
      QuietInside(a[1..], q, ds);
    }
  }

  /** What is read of a host but its place: names, TLS, addresses. */
  ghost predicate SameHost(a: VirtualHost, b: VirtualHost) {
    a.names == b.names && a.isTls == b.isTls && a.addresses == b.addresses
  }

  lemma SwapKeepsHost(addresses: seq<string>, a: seq<LogicalLine>, r: seq<LogicalLine>, n: seq<LogicalLine>,
                      x: seq<LogicalLine>, open: nat, other: nat)
    requires Neutral(r) && Neutral(x)
    ensures SameHost(HostOf(addresses, a + r + n, open), HostOf(addresses, a + x + n, other))
  {
    hide Quiet, AllQuiet, Directives, ServerName, Aliases, SwitchesTlsOn, AddressesTls, ServerScope, Raw, AllClosed, Balanced;
    SwapSays(a, r, n);
    SwapSays(a, x, n);
  }

  lemma SwapSays(a: seq<LogicalLine>, r: seq<LogicalLine>, n: seq<LogicalLine>)
    requires Neutral(r)
    ensures var ds, plain := Directives(a + r + n), Directives(a) + Directives(n);
            ServerName(ds) == ServerName(plain) && Aliases(ds) == Aliases(plain)
            && SwitchesTlsOn(ds) == SwitchesTlsOn(plain)
  {
    hide Quiet, AllQuiet, Directives, ServerName, Aliases, SwitchesTlsOn, AllClosed, Balanced;
    assert a + r + n == a + (r + n);
    DirectivesConcat(a, r + n);
    DirectivesConcat(r, n);
    QuietLinesSayLittle(r, []);
    QuietInside(Directives(a), Directives(r), Directives(n));
  }

  // ---- refusals ----

  lemma {:induction false} ScopeConcat(a: seq<LogicalLine>, b: seq<LogicalLine>, open: seq<string>)
    ensures ServerScope(a + b, open) == ServerScope(a, open) + ServerScope(b, StackAfter(a, open))
  {
    hide KindOf, AllConditional, Stack;
    if a == [] {
      assert a + b == b;
    } else {
      assert (a + b)[1..] == a[1..] + b;
      ScopeConcat(a[1..], b, Stack(open, KindOf(a[0])));
    }
  }

  lemma {:induction false} LastOfConcat(name: string, a: seq<Directive>, b: seq<Directive>)
    ensures LastOf(name, a + b) == if LastOf(name, b).Some? then LastOf(name, b) else LastOf(name, a)
  {
    if b == [] {
      assert a + b == a;
    } else {
      assert (a + b)[..|a + b| - 1] == a + b[..|b| - 1];
      LastOfConcat(name, a, b[..|b| - 1]);
    }
  }

  lemma {:induction false} QuietLast(ds: seq<Directive>)
    requires AllQuiet(ds)
    ensures LastOf("protocols", ds) == None
    ensures match LastOf("rewriteengine", ds)
            case None => true
            case Some(args) => !(args != [] && Lower(args[0]) == "off")
  {
    hide Lower;
    if ds != [] {
      assert QuietDirective(ds[|ds| - 1]);
      QuietLast(ds[..|ds| - 1]);
    }
  }

  /** A refusal looks at the host's name, TLS and what its own scope says; a block in front of its
      lines changes none of the answers. */
  lemma RefusalIgnoresBlock(env: Env, c: Config, addresses: seq<string>, x: seq<LogicalLine>,
                            body: seq<LogicalLine>, tree: Option<Tree>, open: nat, other: nat)
    requires Neutral(x)
    ensures Refusal(env, c, HostOf(addresses, x + body, open), tree)
         == Refusal(env, c, HostOf(addresses, body, other), tree)
  {
    hide Quiet, AllQuiet, Directives, ServerName, Aliases, SwitchesTlsOn, AddressesTls, ServerScope, Raw, AllClosed, LastOf, Compile, SaysH2, Lower;
    NothingIsNeutral();
    assert [] + x + body == x + body && [] + [] + body == body;
    SwapKeepsHost(addresses, [], x, body, [], open, other);
    ScopeConcat(x, body, []);
    assert StackAfter(x, []) == [];
    QuietLinesSayLittle(x, []);
    QuietLast(ServerScope(x, []));
    LastOfConcat("protocols", ServerScope(x, []), ServerScope(body, []));
    LastOfConcat("rewriteengine", ServerScope(x, []), ServerScope(body, []));
  }

  // ---- files whose sections are blocks ----

  /** A host whose located section, if any, is a block as this project writes one. */
  ghost predicate TidyBody(body: seq<LogicalLine>) {
    match Located(body, BLOCK_BEGIN, BLOCK_END)
    case None => true
    case Some(r) => IsOwnBlock(body[r.from..r.to])
  }

  ghost predicate Tidy(ps: seq<Piece>) {
    forall k | 0 <= k < |ps| && ps[k].Host? :: TidyBody(ps[k].body)
  }

  /** What an edit takes out of a body, and what is on either side. */
  lemma EditSplits(body: seq<LogicalLine>, block: seq<LogicalLine>)
      returns (a: seq<LogicalLine>, r: seq<LogicalLine>, n: seq<LogicalLine>)
    ensures body == a + r + n && Edited(body, block) == a + block + n
    ensures match Located(body, BLOCK_BEGIN, BLOCK_END)
            case None => a == [] == r
            case Some(range) => r == body[range.from..range.to] && a == body[..range.from]
  {
    hide Located;
    match Located(body, BLOCK_BEGIN, BLOCK_END)
    case None =>
      a, r, n := [], [], body;
      assert [] + block + body == block + body;
    case Some(range) =>
      a, r, n := body[..range.from], body[range.from..range.to], body[range.to..];
  }

  lemma OwnLinesNeutral(env: Env, c: Config)
    requires SaneEnv(env)
    ensures Neutral(OwnLines(env, c))
  {
    hide Neutral, IsOwnBlock, Compile;
    NothingIsNeutral();
    if Compile(env, c).Some? {
      CompiledIsOwn(env, c);
      OwnIsNeutral(OwnLines(env, c));
    }
  }

  /** Editing a tidy host keeps it one: its lines stay a body, closed, and say the same of it. */
  lemma EditKeepsBody(body: seq<LogicalLine>, block: seq<LogicalLine>, addresses: seq<string>, open: nat, other: nat)
    requires Body(body) && AllClosed(body) && TidyBody(body) && Neutral(block)
    ensures Body(Edited(body, block)) && AllClosed(Edited(body, block))
    ensures SameHost(HostOf(addresses, body, open), HostOf(addresses, Edited(body, block), other))
  {
    hide Body, Located, IsOwnBlock, Edited, HostOf, Quiet, Balanced, Closed;
    var a, r, n := EditSplits(body, block);
    NothingIsNeutral();
    if Located(body, BLOCK_BEGIN, BLOCK_END).Some? { OwnIsNeutral(r); }
    SwapInBody(a, r, n, block);
    SwapKeepsHost(addresses, a, r, n, block, open, other);
    ClosedParts(a, r, n);
    ClosedJoined(a, block, n);
  }

  lemma ClosedParts(a: seq<LogicalLine>, b: seq<LogicalLine>, c: seq<LogicalLine>)
    requires AllClosed(a + b + c)
    ensures AllClosed(a) && AllClosed(c)
  {
    hide Closed;
    forall k | 0 <= k < |a| ensures Closed(a[k]) { assert (a + b + c)[k] == a[k]; }
    forall k | 0 <= k < |c| ensures Closed(c[k]) { assert (a + b + c)[|a| + |b| + k] == c[k]; }
  }

  lemma ClosedJoined(a: seq<LogicalLine>, b: seq<LogicalLine>, c: seq<LogicalLine>)
    requires AllClosed(a) && AllClosed(b) && AllClosed(c)
    ensures AllClosed(a + b + c)
  {
    hide Closed;
  }

  // ---- one pass over a file ----

  /** A host as its piece shows it, wherever it is. */
  function Shown(p: Piece): VirtualHost
    requires p.Host?
  {
    HostOf(AddressesOf(p.head), p.body, 0)
  }

  /** What becomes of a host's lines. */
  function NewBody(w: World, choice: Choice, p: Piece): Result<seq<LogicalLine>>
    requires p.Host?
  {
    match Chosen(choice, FirstName(Shown(p)))
    case None => Ok(p.body)
    case Some(c) =>
      match Refusal(w.env, ForHost(c, Shown(p)), Shown(p), w.tree)
      case Some(why) => Err(why)
      case None => Ok(Edited(p.body, OwnLines(w.env, ForHost(c, Shown(p)))))
  }

  function PlanPiece(w: World, choice: Choice, p: Piece): Result<Piece> {
    if !p.Host? then Ok(p)
    else match NewBody(w, choice, p) case Err(why) => Err(why) case Ok(body) => Ok(p.(body := body))
  }

  /** Every host of a file written to at once, with no second reading: the simple form of an
      apply. */
  function Plan(w: World, choice: Choice, ps: seq<Piece>): Result<seq<Piece>> {
    if ps == [] then Ok([])
    else
      match PlanPiece(w, choice, ps[0])
      case Err(why) => Err(why)
      case Ok(p) =>
        match Plan(w, choice, ps[1..])
        case Err(why) => Err(why)
        case Ok(rest) => Ok([p] + rest)
  }

  lemma PlaceDoesNotMatter(env: Env, c: Config, addresses: seq<string>, body: seq<LogicalLine>, tree: Option<Tree>,
                           open: nat, other: nat)
    ensures var a, b := HostOf(addresses, body, open), HostOf(addresses, body, other);
            SameHost(a, b) && ForHost(c, a) == ForHost(c, b) && Refusal(env, c, a, tree) == Refusal(env, c, b, tree)
  {
    hide Directives, ServerScope, AddressesTls, Raw, SwitchesTlsOn, NamesOf, LastOf, Compile, WithoutTlsRules, SaysH2;
  }

  /** The turn of a host reads as what its piece alone says. */
  lemma TurnReads(w: World, choice: Choice, content: string, front: seq<Piece>, p: Piece, back: seq<Piece>)
    requires FileIs(content, front + [p] + back) && p.Host? && SaneEnv(w.env)
    ensures HostCount(front) < |Hosts(content)|
    ensures Turn(w, choice, content, HostCount(front), |Hosts(content)|)
         == match NewBody(w, choice, p)
            case Err(why) => Err(why)
            case Ok(body) => Ok(Raw(LinesBefore(front, p) + body + LinesAfter(p, back)))
  {
    hide Pieces, Logical, Flatten, Raw, WellFormed, Solid, Refusal, OwnLines, Edited, ApplyBlock, AddressesOf, HostOf, ForHost, Hosts, HostsOf, Chosen, LinesBefore, LinesAfter;
    var host := HostAfter(front, p);
    HostIs(front, p, back);
    HostsOfFile(content, front + [p] + back);
    HostLines(front, p, back);
    var place := |Raw(Flatten(front))| + |p.head.raw|;
    assert FirstName(host) == FirstName(Shown(p)) by { SameName(AddressesOf(p.head), p.body, place, 0); }
    match Chosen(choice, FirstName(host))
    case None =>
    case Some(c) =>
      StepEdits(w, content, front, p, back, c);
      PlaceDoesNotMatter(w.env, ForHost(c, host), AddressesOf(p.head), p.body, w.tree, place, 0);
      PlaceDoesNotMatter(w.env, c, AddressesOf(p.head), p.body, w.tree, place, 0);
  }

  lemma SameName(addresses: seq<string>, body: seq<LogicalLine>, open: nat, other: nat)
    ensures FirstName(HostOf(addresses, body, open)) == FirstName(HostOf(addresses, body, other))
  {
    hide Directives, ServerScope, AddressesTls, Raw, SwitchesTlsOn, NamesOf;
  }

  lemma HostsOfFile(content: string, ps: seq<Piece>)
    requires FileIs(content, ps)
    ensures Hosts(content) == HostsOf(ps, 0)
  {
  }

  /** A host's turn in a tidy file: its own lines change, the file is still read as the same
      pieces, and the host still says the same of itself. */
  lemma TurnKeepsPieces(w: World, choice: Choice, content: string, front: seq<Piece>, p: Piece, back: seq<Piece>)
    requires FileIs(content, front + [p] + back) && p.Host? && SaneEnv(w.env) && TidyBody(p.body)
    requires NewBody(w, choice, p).Ok?
    ensures var q := p.(body := NewBody(w, choice, p).value);
            var all := front + [q] + back;
            && HostCount(front) < |Hosts(content)|
            && Turn(w, choice, content, HostCount(front), |Hosts(content)|) == Ok(TextOf(all))
            && FileIs(TextOf(all), all) && SameHost(Shown(p), Shown(q))
  {
    hide Pieces, Logical, Raw, Flatten, WellFormed, FileIs, TidyBody, Body, AllClosed, AddressesOf, HostOf, Turn, Hosts, NewBody, LinesBefore, LinesAfter;
    var body := NewBody(w, choice, p).value;
    var q := p.(body := body);
    TurnReads(w, choice, content, front, p, back);
    HostIsBody(content, front, p, back);
    NewBodyFits(w, choice, p);
    FileWith(content, front, p, back, body);
    HostLines(front, q, back);
    SameAround(front, p, q, back);
  }

  lemma SameAround(front: seq<Piece>, p: Piece, q: Piece, back: seq<Piece>)
    requires p.Host? && q.Host? && q == p.(body := q.body)
    ensures LinesBefore(front, q) == LinesBefore(front, p) && LinesAfter(q, back) == LinesAfter(p, back)
  {
    hide Flatten;
  }

  lemma HostIsBody(content: string, front: seq<Piece>, p: Piece, back: seq<Piece>)
    requires FileIs(content, front + [p] + back) && p.Host?
    ensures Body(p.body) && AllClosed(p.body)
  {
    hide Pieces, Logical, Raw, Flatten, WellFormed, Body, AllClosed, OpensHost, ClosesHost;
    SolidParts(front, p, back);
    HostLines(front, p, back);
    ClosedBefore(LinesBefore(front, p), p.body, LinesAfter(p, back));
  }

  lemma NewBodyFits(w: World, choice: Choice, p: Piece)
    requires p.Host? && Body(p.body) && AllClosed(p.body) && TidyBody(p.body) && SaneEnv(w.env)
    requires NewBody(w, choice, p).Ok?
    ensures var body := NewBody(w, choice, p).value;
            Body(body) && AllClosed(body) && SameHost(Shown(p), Shown(p.(body := body)))
  {
    hide Body, AllClosed, TidyBody, Refusal, OwnLines, Edited, AddressesOf, HostOf, ForHost, Neutral;
    match Chosen(choice, FirstName(Shown(p)))
    case None =>
    case Some(c) =>
      var narrowed := ForHost(c, Shown(p));
      OwnLinesNeutral(w.env, narrowed);
      EditKeepsBody(p.body, OwnLines(w.env, narrowed), AddressesOf(p.head), 0, 0);
  }

  /** From host `i` on, reading the file again for each host does what one pass over its pieces
      does. */
  lemma {:induction false} RestInOnePass(w: World, choice: Choice, content: string, done: seq<Piece>, rest: seq<Piece>)
    requires FileIs(content, done + rest) && SaneEnv(w.env) && Tidy(rest)
    ensures Rewrite(w, choice, content, HostCount(done), |Hosts(content)|)
         == match Plan(w, choice, rest) case Err(why) => Err(why) case Ok(q) => Ok(TextOf(done + q))
    ensures Plan(w, choice, rest).Ok? ==>
              var all := done + Plan(w, choice, rest).value;
              FileIs(TextOf(all), all)
    decreases |rest|
  {
    hide FileIs, TidyBody, TextOf, Rewrite, Turn, Hosts, NewBody, Shown, SameHost;
    CountConcat(done, rest);
    HostsNumber(content, done + rest);
    var i, count := HostCount(done), |Hosts(content)|;
    RewriteStep(w, choice, content, i, count);
    if rest == [] {
      assert done + rest == done && TextOf(done) == content by { TextIs(content, done + rest); }
    } else {
      var p, back := rest[0], rest[1..];
      assert done + rest == done + [p] + back;
      TidyTail(rest);
      CountConcat(done, [p]);
      CountOne(p);
      if !p.Host? {
        RestInOnePass(w, choice, content, done + [p], back);
        PlanStep(w, choice, rest, p);
        if Plan(w, choice, back).Ok? { PlanJoins(done, p, Plan(w, choice, back)); }
      } else {
        TurnReads(w, choice, content, done, p, back);
        if NewBody(w, choice, p).Ok? {
          var q := p.(body := NewBody(w, choice, p).value);
          TurnKeepsPieces(w, choice, content, done, p, back);
          var next := TextOf(done + [q] + back);
          HostsNumber(next, done + [q] + back);
          CountConcat(done + [q], back);
          CountConcat(done + [p], back);
          CountConcat(done, [q]);
          CountOne(q);
          RestInOnePass(w, choice, next, done + [q], back);
          PlanStep(w, choice, rest, q);
          if Plan(w, choice, back).Ok? { PlanJoins(done, q, Plan(w, choice, back)); }
        } else {
          PlanFails(w, choice, rest);
        }
      }
    }
  }

  lemma TextIs(content: string, ps: seq<Piece>)
    requires FileIs(content, ps)
    ensures content == TextOf(ps)
  {
  }

  lemma TidyTail(ps: seq<Piece>)
    requires ps != [] && Tidy(ps)
    ensures Tidy(ps[1..]) && (ps[0].Host? ==> TidyBody(ps[0].body))
  {
    hide TidyBody;
  }

  lemma CountOne(p: Piece)
    ensures HostCount([p]) == if p.Host? then 1 else 0
  {
    assert [p][1..] == [];
  }

  lemma HostsNumber(content: string, ps: seq<Piece>)
    requires FileIs(content, ps)
    ensures |Hosts(content)| == HostCount(ps)
  {
    hide HostsOf, HostCount, Pieces, Logical, Flatten;
    HostsOfFile(content, ps);
    HostsCounted(ps, 0);
  }

  lemma PlanStep(w: World, choice: Choice, ps: seq<Piece>, p: Piece)
    requires ps != [] && PlanPiece(w, choice, ps[0]) == Ok(p)
    ensures Plan(w, choice, ps)
         == match Plan(w, choice, ps[1..]) case Err(why) => Err(why) case Ok(rest) => Ok([p] + rest)
  {
    hide PlanPiece;
  }

  lemma PlanFails(w: World, choice: Choice, ps: seq<Piece>)
    requires ps != [] && ps[0].Host? && NewBody(w, choice, ps[0]).Err?
    ensures Plan(w, choice, ps) == Err(NewBody(w, choice, ps[0]).reason)
  {
    hide NewBody;
  }

  lemma PlanJoins(done: seq<Piece>, p: Piece, rest: Result<seq<Piece>>)
    requires rest.Ok?
    ensures done + [p] + rest.value == done + ([p] + rest.value)
  {
  }

  /** Writing to a tidy file host by host, reading it again after each, is writing to all its hosts
      at once. The number of hosts never changes under it, so it is only ever refused for what a
      configuration asks of a host. */
  lemma ApplyIsOnePass(w: World, choice: Choice, content: string)
    requires SaneEnv(w.env) && Tidy(Pieces(Logical(content)))
    ensures var plan := Plan(w, choice, Pieces(Logical(content)));
            && Applied(w, choice, content)
               == (match plan case Err(why) => Err(why) case Ok(q) => Ok(TextOf(q)))
            && (plan.Ok? ==> FileIs(TextOf(plan.value), plan.value))
            && (plan.Err? ==> plan.reason != HostsChanged)
  {
    hide FileIs, Tidy, Rewrite, Plan, Pieces, Logical, TextOf, Hosts, HostCount;
    var ps := Pieces(Logical(content));
    EveryFile(content);
    assert [] + ps == ps;
    assert HostCount([]) == 0 by { NoHosts(); }
    RestInOnePass(w, choice, content, [], ps);
    if Plan(w, choice, ps).Ok? {
      assert [] + Plan(w, choice, ps).value == Plan(w, choice, ps).value;
    } else {
      PlanRefuses(w, choice, ps);
    }
  }

  lemma NoHosts()
    ensures HostCount([]) == 0
  {
  }

  lemma {:induction false} PlanRefuses(w: World, choice: Choice, ps: seq<Piece>)
    requires Plan(w, choice, ps).Err?
    ensures Plan(w, choice, ps).reason != HostsChanged
  {
    hide ForHost, Edited, OwnLines, HostOf, Compile, WithoutH2, RewriteSwitchedOff, Chosen;
    if PlanPiece(w, choice, ps[0]).Ok? {
      PlanRefuses(w, choice, ps[1..]);
    }
  }

  /** Each piece of a plan is what becomes of that piece. */
  lemma {:induction false} PlanIsPointwise(w: World, choice: Choice, ps: seq<Piece>)
    requires Plan(w, choice, ps).Ok?
    ensures |Plan(w, choice, ps).value| == |ps|
    ensures forall k | 0 <= k < |ps| :: PlanPiece(w, choice, ps[k]) == Ok(Plan(w, choice, ps).value[k])
  {
    hide PlanPiece;
    if ps != [] {
      PlanIsPointwise(w, choice, ps[1..]);
    }
  }

  lemma PieceIsBody(content: string, ps: seq<Piece>, k: nat)
    requires FileIs(content, ps) && k < |ps| && ps[k].Host?
    ensures Body(ps[k].body) && AllClosed(ps[k].body)
  {
    hide FileIs, Body, AllClosed;
    assert ps == ps[..k] + [ps[k]] + ps[k + 1..];
    HostIsBody(content, ps[..k], ps[k], ps[k + 1..]);
  }

  /** Pieces whose hosts say the same of themselves. */
  ghost predicate SamePieces(ps: seq<Piece>, qs: seq<Piece>) {
    && |ps| == |qs|
    && forall k | 0 <= k < |ps| ::
         ps[k].Host? == qs[k].Host? && (ps[k].Host? ==> SameHost(Shown(ps[k]), Shown(qs[k])))
  }

  ghost predicate SameHosts(a: seq<VirtualHost>, b: seq<VirtualHost>) {
    |a| == |b| && forall k | 0 <= k < |a| :: SameHost(a[k], b[k])
  }

  lemma {:induction false} PiecesShowHosts(ps: seq<Piece>, qs: seq<Piece>, at: nat, other: nat)
    requires SamePieces(ps, qs)
    ensures SameHosts(HostsOf(ps, at), HostsOf(qs, other))
  {
    hide HostOf, AddressesOf, PieceLines, SameHost, Raw;
    if ps != [] {
      var p, q := ps[0], qs[0];
      PiecesShowHosts(ps[1..], qs[1..], at + |Raw(PieceLines(p))|, other + |Raw(PieceLines(q))|);
      if p.Host? {
        SamePlace(p, at);
        SamePlace(q, other);
        SameTwice(PieceHosts(p, at)[0], Shown(p), Shown(q));
        SameTwice(PieceHosts(p, at)[0], Shown(q), PieceHosts(q, other)[0]);
      }
    }
  }

  lemma SameTwice(a: VirtualHost, b: VirtualHost, c: VirtualHost)
    requires SameHost(a, b) && SameHost(b, c)
    ensures SameHost(a, c)
  {
  }

  lemma SamePlace(p: Piece, at: nat)
    requires p.Host?
    ensures |PieceHosts(p, at)| == 1 && SameHost(PieceHosts(p, at)[0], Shown(p))
    ensures SameHost(Shown(p), PieceHosts(p, at)[0])
  {
    hide Directives, ServerScope, AddressesTls, Raw, SwitchesTlsOn, NamesOf, AddressesOf;
  }

  lemma PlanKeepsPieces(w: World, choice: Choice, content: string, ps: seq<Piece>)
    requires FileIs(content, ps) && Tidy(ps) && SaneEnv(w.env) && Plan(w, choice, ps).Ok?
    ensures SamePieces(ps, Plan(w, choice, ps).value)
  {
    hide FileIs, TidyBody, Body, AllClosed, NewBody, Shown, SameHost, Plan;
    PlanIsPointwise(w, choice, ps);
    var qs := Plan(w, choice, ps).value;
    forall k | 0 <= k < |ps|
      ensures ps[k].Host? == qs[k].Host? && (ps[k].Host? ==> SameHost(Shown(ps[k]), Shown(qs[k])))
    {
      assert PlanPiece(w, choice, ps[k]) == Ok(qs[k]);
      if ps[k].Host? {
        assert TidyBody(ps[k].body);
        PieceIsBody(content, ps, k);
        NewBodyFits(w, choice, ps[k]);
      }
    }
  }

  /** What is written leaves the file with the same hosts, in the same order, with the same names,
      TLS and addresses. */
  lemma HostsSurvive(w: World, choice: Choice, content: string)
    requires SaneEnv(w.env) && Tidy(Pieces(Logical(content))) && Applied(w, choice, content).Ok?
    ensures SameHosts(Hosts(content), Hosts(Applied(w, choice, content).value))
  {
    hide FileIs, Tidy, Pieces, Logical, Plan, TextOf, SamePieces, SameHosts, Applied, HostsOf, Hosts;
    var ps := Pieces(Logical(content));
    EveryFile(content);
    ApplyIsOnePass(w, choice, content);
    PlanKeepsPieces(w, choice, content, ps);
    var qs := Plan(w, choice, ps).value;
    HostsOfFile(content, ps);
    HostsOfFile(TextOf(qs), qs);
    PiecesShowHosts(ps, qs, 0, 0);
  }

  // ---- finding a block that was written ----

  lemma {:induction false} MarkIsAt(ls: seq<LogicalLine>, mark: string, k: nat)
    requires k < |ls| && Marks(ls[k], mark) && forall j | 0 <= j < k :: !Marks(ls[j], mark)
    ensures MarkAt(ls, mark) == Some(k)
  {
    hide Marks;
    if k > 0 { MarkIsAt(ls[1..], mark, k - 1); }
  }

  lemma {:induction false} MarkIsPast(x: seq<LogicalLine>, body: seq<LogicalLine>, mark: string)
    requires forall j | 0 <= j < |x| :: !Marks(x[j], mark)
    ensures MarkAt(x + body, mark) == match MarkAt(body, mark) case None => None case Some(k) => Some(|x| + k)
  {
    hide Marks;
    if x == [] {
      assert x + body == body;
    } else {
      assert (x + body)[1..] == x[1..] + body;
      MarkIsPast(x[1..], body, mark);
    }
  }

  /** A block in front of a body is what is located there. */
  lemma OwnIsLocated(x: seq<LogicalLine>, body: seq<LogicalLine>)
    requires IsOwnBlock(x)
    ensures Located(x + body, BLOCK_BEGIN, BLOCK_END) == Some(Range(0, |x|))
  {
    hide Marks, Quiet, Closed, Balanced, MarkAt;
    var ls := x + body;
    MarkIsAt(ls, BLOCK_BEGIN, 0);
    assert ls[0..] == ls;
    forall j | 0 <= j < |x| - 1 ensures !Marks(ls[j], BLOCK_END) { assert ls[j] == x[j]; }
    MarkIsAt(ls, BLOCK_END, |x| - 1);
  }

  /** A block hides no console section, and is none. */
  lemma ConsolePastOwn(x: seq<LogicalLine>, body: seq<LogicalLine>)
    requires Neutral(x) && Located(body, CONSOLE_BEGIN, CONSOLE_END) == None
    ensures Located(x + body, CONSOLE_BEGIN, CONSOLE_END) == None
  {
    hide Marks, MarkAt, KindOf, Closed, Balanced, QuietDirective;
    forall j | 0 <= j < |x| ensures !Marks(x[j], CONSOLE_BEGIN) { assert Quiet(x[j]); }
    MarkIsPast(x, body, CONSOLE_BEGIN);
    match MarkAt(body, CONSOLE_BEGIN)
    case None =>
    case Some(k) => assert (x + body)[|x| + k..] == body[k..];
  }

  // ---- writing again ----

  /** No host has a section of this project's. */
  ghost predicate CleanBody(body: seq<LogicalLine>) {
    && Located(body, BLOCK_BEGIN, BLOCK_END) == None
    && Located(body, CONSOLE_BEGIN, CONSOLE_END) == None
  }

  ghost predicate Clean(ps: seq<Piece>) {
    forall k | 0 <= k < |ps| && ps[k].Host? :: CleanBody(ps[k].body)
  }

  lemma CleanIsTidy(ps: seq<Piece>)
    requires Clean(ps)
    ensures Tidy(ps)
  {
    hide Located;
  }

  /** A piece, perhaps with a block in front of its host's lines. */
  ghost predicate HasBlock(p: Piece, q: Piece) {
    || q == p
    || (p.Host? && q.Host? && |p.body| <= |q.body|
        && q == p.(body := q.body) && q.body[|q.body| - |p.body|..] == p.body
        && IsOwnBlock(q.body[..|q.body| - |p.body|]))
  }

  ghost predicate HaveBlocks(ps: seq<Piece>, qs: seq<Piece>) {
    |ps| == |qs| && forall k | 0 <= k < |ps| :: HasBlock(ps[k], qs[k])
  }

  lemma OwnLinesOrNone(env: Env, c: Config)
    requires SaneEnv(env)
    ensures OwnLines(env, c) == [] || IsOwnBlock(OwnLines(env, c))
  {
    hide IsOwnBlock, Compile;
    if Compile(env, c).Some? { CompiledIsOwn(env, c); }
  }

  lemma CleanPieceGetsBlock(w: World, choice: Choice, p: Piece)
    requires SaneEnv(w.env) && p.Host? && CleanBody(p.body) && NewBody(w, choice, p).Ok?
    ensures HasBlock(p, p.(body := NewBody(w, choice, p).value))
  {
    hide Located, IsOwnBlock, Refusal, ForHost, OwnLines, HostOf;
    match Chosen(choice, FirstName(Shown(p)))
    case None =>
    case Some(c) =>
      var x := OwnLines(w.env, ForHost(c, Shown(p)));
      OwnLinesOrNone(w.env, ForHost(c, Shown(p)));
      assert (x + p.body)[|x|..] == p.body && (x + p.body)[..|x|] == x;
      if x == [] { assert x + p.body == p.body; }
  }

  lemma CleanFileGetsBlocks(w: World, choice: Choice, ps: seq<Piece>)
    requires SaneEnv(w.env) && Clean(ps) && Plan(w, choice, ps).Ok?
    ensures HaveBlocks(ps, Plan(w, choice, ps).value)
  {
    hide CleanBody, HasBlock, NewBody, Plan;
    PlanIsPointwise(w, choice, ps);
    var qs := Plan(w, choice, ps).value;
    forall k | 0 <= k < |ps|
      ensures HasBlock(ps[k], qs[k])
    {
      assert PlanPiece(w, choice, ps[k]) == Ok(qs[k]);
      if ps[k].Host? {
        assert CleanBody(ps[k].body);
        CleanPieceGetsBlock(w, choice, ps[k]);
      } else {
        SameHasBlock(ps[k]);
      }
    }
  }

  lemma SameHasBlock(p: Piece)
    ensures HasBlock(p, p)
  {
  }

  /** A block in front of a host's lines changes nothing the host says of itself. */
  lemma OwnKeepsHost(addresses: seq<string>, x: seq<LogicalLine>, body: seq<LogicalLine>, c: Config)
    requires Neutral(x)
    ensures var g, h := HostOf(addresses, x + body, 0), HostOf(addresses, body, 0);
            SameHost(g, h) && FirstName(g) == FirstName(h) && ForHost(c, g) == ForHost(c, h)
  {
    hide Neutral, HostOf, WithoutTlsRules;
    NothingIsNeutral();
    var none: seq<LogicalLine> := [];
    assert none + x + body == x + body && none + none + body == body;
    SwapKeepsHost(addresses, none, x, body, none, 0, 0);
  }

  /** Writing over a block is writing where there was none. */
  lemma EditedOverOwn(x: seq<LogicalLine>, y: seq<LogicalLine>, body: seq<LogicalLine>)
    requires IsOwnBlock(x) && Located(body, BLOCK_BEGIN, BLOCK_END) == None
    ensures Edited(x + body, y) == Edited(body, y)
  {
    hide Located, IsOwnBlock;
    OwnIsLocated(x, body);
    assert (x + body)[..0] == [] && (x + body)[|x|..] == body;
    assert [] + y + body == y + body;
  }

  /** What is written into a host does not depend on the block already in front of its lines. */
  lemma NewBodyIgnoresBlock(w: World, choice: Choice, p: Piece, x: seq<LogicalLine>)
    requires SaneEnv(w.env) && p.Host? && CleanBody(p.body) && IsOwnBlock(x)
    ensures var q := p.(body := x + p.body);
            Chosen(choice, FirstName(Shown(q))) == Chosen(choice, FirstName(Shown(p)))
            && (Chosen(choice, FirstName(Shown(p))).Some? ==> NewBody(w, choice, q) == NewBody(w, choice, p))
  {
    hide Located, IsOwnBlock, Refusal, OwnLines, HostOf, AddressesOf, Neutral, ForHost, Chosen, FirstName, SameHost, Edited;
    var addresses := AddressesOf(p.head);
    OwnIsNeutral(x);
    match Chosen(choice, FirstName(Shown(p)))
    case None => OwnKeepsHost(addresses, x, p.body, Config([], Forbidden, false, [], [], [], false));
    case Some(c) =>
      OwnKeepsHost(addresses, x, p.body, c);
      var narrowed := ForHost(c, Shown(p));
      RefusalIgnoresBlock(w.env, narrowed, addresses, x, p.body, w.tree, 0, 0);
      EditedOverOwn(x, OwnLines(w.env, narrowed), p.body);
  }

  /** A second choice that writes to every host the first one does. */
  ghost predicate Covers(second: Choice, first: Choice) {
    forall name :: Chosen(first, name).Some? ==> Chosen(second, name).Some?
  }

  lemma SplitBlock(p: Piece, q: Piece) returns (x: seq<LogicalLine>)
    requires HasBlock(p, q) && p != q
    ensures p.Host? && IsOwnBlock(x) && q == p.(body := x + p.body)
  {
    hide IsOwnBlock;
    x := q.body[..|q.body| - |p.body|];
    assert q.body == x + q.body[|q.body| - |p.body|..];
  }

  lemma PieceAgain(w: World, first: Choice, second: Choice, p: Piece, q: Piece)
    requires SaneEnv(w.env) && (p.Host? ==> CleanBody(p.body)) && PlanPiece(w, first, p) == Ok(q)
    requires Covers(second, first)
    ensures PlanPiece(w, second, q) == PlanPiece(w, second, p)
    ensures HasBlock(p, q)
  {
    hide CleanBody, HasBlock, IsOwnBlock, Refusal, OwnLines, HostOf, AddressesOf, ForHost, Edited, Chosen;
    if p.Host? {
      CleanPieceGetsBlock(w, first, p);
      if p != q {
        var x := SplitBlock(p, q);
        NewBodyIgnoresBlock(w, second, p, x);
        assert Chosen(first, FirstName(Shown(p))).Some?;
      }
    } else {
      SameHasBlock(p);
    }
  }

  lemma {:induction false} PlanDependsOnPieces(w: World, choice: Choice, ps: seq<Piece>, qs: seq<Piece>)
    requires |ps| == |qs| && forall k | 0 <= k < |ps| :: PlanPiece(w, choice, ps[k]) == PlanPiece(w, choice, qs[k])
    ensures Plan(w, choice, ps) == Plan(w, choice, qs)
  {
    hide PlanPiece;
    if ps != [] {
      assert PlanPiece(w, choice, ps[0]) == PlanPiece(w, choice, qs[0]);
      PlanDependsOnPieces(w, choice, ps[1..], qs[1..]);
    }
  }

  lemma BlockIsTidy(p: Piece, q: Piece)
    requires HasBlock(p, q) && p.Host? && CleanBody(p.body)
    ensures q.Host? && TidyBody(q.body)
  {
    hide IsOwnBlock, Located;
    if p != q {
      var x := SplitBlock(p, q);
      OwnIsLocated(x, p.body);
      assert (x + p.body)[0..|x|] == x;
    }
  }

  lemma BlocksAreTidy(ps: seq<Piece>, qs: seq<Piece>)
    requires Clean(ps) && HaveBlocks(ps, qs)
    ensures Tidy(qs)
  {
    hide CleanBody, HasBlock, TidyBody;
    forall k | 0 <= k < |qs| && qs[k].Host?
      ensures TidyBody(qs[k].body)
    {
      assert HasBlock(ps[k], qs[k]);
      HasBlockKind(ps[k], qs[k]);
      assert CleanBody(ps[k].body);
      BlockIsTidy(ps[k], qs[k]);
    }
  }

  lemma HasBlockKind(p: Piece, q: Piece)
    requires HasBlock(p, q)
    ensures p.Host? == q.Host?
  {
  }

  /** On a file with no section of this project's, the last apply wins: writing one choice and then
      another is writing the second alone, whatever the first wrote, and is refused for the same
      reason when it is refused. */
  lemma LastApplyWins(w: World, first: Choice, second: Choice, content: string)
    requires SaneEnv(w.env) && Clean(Pieces(Logical(content)))
    requires Covers(second, first) && Applied(w, first, content).Ok?
    ensures Applied(w, second, Applied(w, first, content).value) == Applied(w, second, content)
  {
    hide FileIs, Tidy, Pieces, Logical, Plan, PlanPiece, TextOf, Applied, CleanBody, HasBlock, Covers;
    var ps := Pieces(Logical(content));
    CleanIsTidy(ps);
    ApplyIsOnePass(w, first, content);
    var qs := Plan(w, first, ps).value;
    CleanFileGetsBlocks(w, first, ps);
    BlocksAreTidy(ps, qs);
    PlanIsPointwise(w, first, ps);
    forall k | 0 <= k < |ps|
      ensures PlanPiece(w, second, qs[k]) == PlanPiece(w, second, ps[k])
    {
      assert PlanPiece(w, first, ps[k]) == Ok(qs[k]);
      assert ps[k].Host? ==> CleanBody(ps[k].body);
      PieceAgain(w, first, second, ps[k], qs[k]);
    }
    PlanDependsOnPieces(w, second, qs, ps);
    ReadsBack(TextOf(qs), qs);
    ApplyIsOnePass(w, second, TextOf(qs));
    ApplyIsOnePass(w, second, content);
  }

  lemma ReadsBack(content: string, ps: seq<Piece>)
    requires FileIs(content, ps)
    ensures Pieces(Logical(content)) == ps
  {
    hide Pieces, Logical, Flatten, Raw, WellFormed, Solid;
  }
}

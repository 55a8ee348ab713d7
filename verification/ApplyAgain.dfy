/** What a second apply of the same configuration does (`src/apache.rs`, "Idempotent"). */
module ApplyAgain {
  import opened Text
  import opened ConfText
  import opened ConfWords
  import opened ConfHosts
  import opened BlockConfig
  import opened RewriteProgram
  import opened BlockText
  import opened OwnBlock
  import opened BlockEdits
  import opened ApplyBlocks
  import opened ApplyTheorems
  import opened BlockRemoval
  import opened ApplyStatus

  // ---- balanced lines stay inside the sections around them ----

  /** Whether some line of `ls` closes a section that was open before them, when `inner` have been
      opened since. */
  predicate Dips(ls: seq<LogicalLine>, inner: seq<string>) {
    ls != [] && ((inner == [] && KindOf(ls[0]).Close?) || Dips(ls[1..], Stack(inner, KindOf(ls[0]))))
  }

  /** A line that closes a section finds none where none is open: what is open above and below then
      comes closer together, for good. */
  lemma {:induction false} DipsNarrow(ls: seq<LogicalLine>, low: seq<string>, high: seq<string>)
    requires |low| + |ls| < |high|
    ensures |StackAfter(ls, high)| - |StackAfter(ls, low)| <= |high| - |low|
    ensures Dips(ls, low) ==> |StackAfter(ls, high)| - |StackAfter(ls, low)| < |high| - |low|
  {
    hide KindOf;
    if ls != [] {
      var k := KindOf(ls[0]);
      DipsNarrow(ls[1..], Stack(low, k), Stack(high, k));
    }
  }

  lemma BalancedNeverDips(ls: seq<LogicalLine>)
    requires Balanced(ls)
    ensures !Dips(ls, [])
  {
    hide StackAfter, Dips;
    var high := seq(|ls| + 1, _ => "");
    DipsNarrow(ls, [], high);
    assert StackAfter(ls, []) == [] && StackAfter(ls, high) == high;
  }

  /** Lines that stay inside a section that is not conditional set nothing for the host. */
  lemma {:induction false} NoScopeInside(ls: seq<LogicalLine>, base: seq<string>, inner: seq<string>)
    requires !Dips(ls, inner) && !AllConditional(base)
    ensures ServerScope(ls, base + inner) == []
  {
    hide KindOf, IsConditional;
    if ls != [] {
      var k := KindOf(ls[0]);
      StackInside(base, inner, k);
      NoScopeInside(ls[1..], base, Stack(inner, k));
      var n :| 0 <= n < |base| && !IsConditional(base[n]);
      assert (base + inner)[n] == base[n];
    }
  }

  lemma StackInside(base: seq<string>, inner: seq<string>, k: Kind)
    requires inner != [] || !k.Close?
    ensures Stack(base + inner, k) == base + Stack(inner, k)
  {
    if k.Close? {
      assert (base + inner)[..|base + inner| - 1] == base + inner[..|inner| - 1];
    }
  }

  // ---- a refusal after an edit ----

  /** In the scope of the host, a written block switches its rules on. */
  lemma EngineInScope(env: Env, c: Config, open: seq<string>)
    requires SaneEnv(env) && Compile(env, c).Some? && AllConditional(open)
    ensures LastOf("rewriteengine", ServerScope(OwnLines(env, c), open)).Some?
  {
    hide *;
    var rest := OwnStarts(env, c);
    EngineStarts(rest, open);
  }

  lemma OwnStarts(env: Env, c: Config) returns (rest: seq<LogicalLine>)
    requires Compile(env, c).Some?
    ensures OwnLines(env, c) == [Logged(Comment(BLOCK_BEGIN)), Logged(Setting("RewriteEngine", "On"))] + rest
  {
    hide Compile, Logged, RuleLines, ServeLines;
    var b := Compile(env, c).value;
    var lines := BlockLines(env, b);
    rest := LoggedAll(lines[2..]);
    assert lines[0] == Comment(BLOCK_BEGIN) && lines[1] == Setting("RewriteEngine", "On");
    assert lines == [Comment(BLOCK_BEGIN)] + ([Setting("RewriteEngine", "On")] + lines[2..]);
    LoggedCons(Comment(BLOCK_BEGIN), [Setting("RewriteEngine", "On")] + lines[2..]);
    LoggedCons(Setting("RewriteEngine", "On"), lines[2..]);
  }

  lemma LoggedCons(l: BlockLine, rest: seq<BlockLine>)
    ensures LoggedAll([l] + rest) == [Logged(l)] + LoggedAll(rest)
  {
    hide Logged;
    assert ([l] + rest)[1..] == rest;
  }

  lemma EngineStarts(rest: seq<LogicalLine>, open: seq<string>)
    requires AllConditional(open)
    ensures LastOf("rewriteengine",
                   ServerScope([Logged(Comment(BLOCK_BEGIN)), Logged(Setting("RewriteEngine", "On"))] + rest, open)).Some?
  {
    hide KindOf, AllConditional, LastOf;
    var mark, engine := Logged(Comment(BLOCK_BEGIN)), Logged(Setting("RewriteEngine", "On"));
    EngineKind();
    var d := Directive("rewriteengine", KindOf(engine).directive.args);
    ScopeCons(mark, [engine] + rest, open);
    ScopeCons(engine, rest, open);
    assert [mark, engine] + rest == [mark] + ([engine] + rest);
    EngineFirst(d, ServerScope(rest, open));
  }

  lemma EngineFirst(d: Directive, ds: seq<Directive>)
    requires d.name == "rewriteengine"
    ensures LastOf("rewriteengine", [] + ([d] + ds)).Some?
  {
    LastOfConcat("rewriteengine", [d], ds);
    assert [] + ([d] + ds) == [d] + ds;
    assert [d][0] == d;
  }

  lemma EngineLower()
    ensures Lower("RewriteEngine") == "rewriteengine"
  {
  }

  lemma EngineKind()
    ensures var k := KindOf(Logged(Setting("RewriteEngine", "On"))); k.Sets? && k.directive.name == "rewriteengine"
    ensures var k := KindOf(Logged(Comment(BLOCK_BEGIN))); !k.Sets? && !k.Open? && !k.Close?
  {
    hide TextKind, Trim, Lower, Words;
    EngineLower();
    SettingKindOf("RewriteEngine", "On");
    MarkersWritable();
    CommentLineReads(BLOCK_BEGIN);
  }

  lemma SettingKindOf(name: string, args: string)
    requires Letters(name) && args != "" && !IsSpace(args[|args| - 1])
    ensures var k := KindOf(Logged(Setting(name, args))); k.Sets? && k.directive.name == Lower(name)
  {
    hide TextKind, Trim, Lower, Words;
    assert "    " + name + " " + args == "    " + (name + " " + args);
    SettingKind("    ", name, args);
  }

  lemma ScopeCons(l: LogicalLine, rest: seq<LogicalLine>, open: seq<string>)
    requires AllConditional(open) && !KindOf(l).Open? && !KindOf(l).Close?
    ensures ServerScope([l] + rest, open) == DirectiveOf(KindOf(l)) + ServerScope(rest, open)
  {
    hide KindOf, AllConditional;
    assert ([l] + rest)[1..] == rest;
  }

  /** Where in a host's lines a block stands for another or for nothing. */
  lemma ScopeAround(a: seq<LogicalLine>, r: seq<LogicalLine>, n: seq<LogicalLine>)
    requires Neutral(r)
    ensures var open := StackAfter(a, []);
            && ServerScope(a + r + n, []) == ServerScope(a, []) + (ServerScope(r, open) + ServerScope(n, open))
            && AllQuiet(ServerScope(r, open)) && (!AllConditional(open) ==> ServerScope(r, open) == [])
  {
    hide Quiet, AllQuiet, ServerScope, StackAfter, AllClosed, AllConditional, Dips;
    var open := StackAfter(a, []);
    assert a + r + n == a + (r + n);
    ScopeConcat(a, r + n, []);
    ScopeConcat(r, n, open);
    assert StackAfter(r, open) == open;
    QuietLinesSayLittle(r, open);
    BalancedNeverDips(r);
    if !AllConditional(open) {
      NoScopeInside(r, open, []);
      assert open + [] == open;
    }
  }

  ghost predicate Off(ds: seq<Directive>) {
    match LastOf("rewriteengine", ds)
    case None => false
    case Some(args) => args != [] && Lower(args[0]) == "off"
  }

  /** What the scopes of the host say, with one block in the place of another. */
  lemma SwapInScope(a: seq<Directive>, r: seq<Directive>, n: seq<Directive>, x: seq<Directive>)
    requires AllQuiet(r) && AllQuiet(x)
    ensures LastOf("protocols", a + (r + n)) == LastOf("protocols", a + (x + n))
    ensures !Off(a + (r + n)) && (LastOf("rewriteengine", x).Some? || r == x) ==> !Off(a + (x + n))
  {
    hide Lower, AllQuiet, LastOf;
    LastOfConcat("protocols", a, r + n);
    LastOfConcat("protocols", r, n);
    LastOfConcat("protocols", a, x + n);
    LastOfConcat("protocols", x, n);
    LastOfConcat("rewriteengine", a, r + n);
    LastOfConcat("rewriteengine", r, n);
    LastOfConcat("rewriteengine", a, x + n);
    LastOfConcat("rewriteengine", x, n);
    QuietLast(r);
    QuietLast(x);
  }

  lemma ScopeOf(addresses: seq<string>, body: seq<LogicalLine>, open: nat)
    ensures HostOf(addresses, body, open).serverScope == ServerScope(body, [])
  {
    hide Directives, ServerScope, AddressesTls, Raw, SwitchesTlsOn, NamesOf;
  }

  /** A refusal depends on a host's name and these two answers of its scope alone. */
  lemma RefusalSays(env: Env, c: Config, h: VirtualHost, tree: Option<Tree>)
    ensures Refusal(env, c, h, tree).None?
       <==> !(Http1x in c.requestRules && WithoutH2(tree, h).Some?) && !(Compile(env, c).Some? && Off(h.serverScope))
  {
    hide Compile, WithoutH2, LastOf, Lower;
  }

  lemma H2OfScope(tree: Option<Tree>, g: VirtualHost, h: VirtualHost)
    requires LastOf("protocols", g.serverScope) == LastOf("protocols", h.serverScope)
    ensures WithoutH2(tree, g) == WithoutH2(tree, h)
  {
    hide LastOf, SaysH2;
  }

  /** A block that was not refused is not refused once it is written. */
  lemma WrittenIsNotRefused(env: Env, c: Config, addresses: seq<string>, a: seq<LogicalLine>, r: seq<LogicalLine>,
                            n: seq<LogicalLine>, tree: Option<Tree>)
    requires SaneEnv(env) && Neutral(r) && Refusal(env, c, HostOf(addresses, a + r + n, 0), tree).None?
    ensures Refusal(env, c, HostOf(addresses, a + OwnLines(env, c) + n, 0), tree).None?
  {
    hide *;
    var x, open := OwnLines(env, c), StackAfter(a, []);
    var g, h := HostOf(addresses, a + r + n, 0), HostOf(addresses, a + x + n, 0);
    OwnLinesNeutral(env, c);
    ScopeOf(addresses, a + r + n, 0);
    ScopeOf(addresses, a + x + n, 0);
    ScopeAround(a, r, n);
    ScopeAround(a, x, n);
    if Compile(env, c).Some? && AllConditional(open) { EngineInScope(env, c, open); }
    SwapInScope(ServerScope(a, []), ServerScope(r, open), ServerScope(n, open), ServerScope(x, open));
    RefusalSays(env, c, g, tree);
    RefusalSays(env, c, h, tree);
    H2OfScope(tree, g, h);
  }

  // ---- a host that was written to ----

  /** A block is found again where it was put. */
  lemma OwnIsLocatedAt(a: seq<LogicalLine>, x: seq<LogicalLine>, n: seq<LogicalLine>)
    requires IsOwnBlock(x) && forall j | 0 <= j < |a| :: !Marks(a[j], BLOCK_BEGIN)
    ensures Located(a + x + n, BLOCK_BEGIN, BLOCK_END) == Some(Range(|a|, |a| + |x|))
  {
    hide Marks, Quiet, Closed, Balanced, MarkAt;
    assert a + x + n == a + (x + n);
    MarkIsPast(a, x + n, BLOCK_BEGIN);
    OwnIsLocated(x, n);
    assert (a + (x + n))[|a|..] == x + n;
    assert (x + n)[0..] == x + n;
    LocatedParts(x + n, BLOCK_BEGIN, BLOCK_END);
  }

  lemma LocatedParts(body: seq<LogicalLine>, begin: string, end: string)
    ensures Located(body, begin, end).Some? ==>
              var r := Located(body, begin, end).value;
              MarkAt(body, begin) == Some(r.from) && MarkAt(body[r.from..], end) == Some(r.to - 1 - r.from)
  {
    hide MarkAt;
  }

  /** What is in front of a located section has no opening marker. */
  lemma NoneInFront(body: seq<LogicalLine>, r: Range)
    requires Located(body, BLOCK_BEGIN, BLOCK_END) == Some(r)
    ensures forall j | 0 <= j < r.from :: !Marks(body[..r.from][j], BLOCK_BEGIN)
  {
    hide Marks, MarkAt;
    MarkIsFirst(body, BLOCK_BEGIN);
  }

  /** Writing a block where it was just written changes nothing. */
  lemma EditedAgain(body: seq<LogicalLine>, x: seq<LogicalLine>)
    requires IsOwnBlock(x)
    ensures Edited(Edited(body, x), x) == Edited(body, x)
  {
    hide Located, IsOwnBlock, Marks;
    var a, r, n := EditSplits(body, x);
    if Located(body, BLOCK_BEGIN, BLOCK_END).Some? {
      NoneInFront(body, Located(body, BLOCK_BEGIN, BLOCK_END).value);
    }
    OwnIsLocatedAt(a, x, n);
    assert (a + x + n)[..|a|] == a && (a + x + n)[|a| + |x|..] == n;
  }

  /** Taking a section out changes the lines exactly when one is there. */
  lemma TakingOutChanges(body: seq<LogicalLine>)
    ensures Edited(body, []) == body <==> Located(body, BLOCK_BEGIN, BLOCK_END).None?
  {
    hide Located;
    match Located(body, BLOCK_BEGIN, BLOCK_END)
    case None => assert [] + body == body;
    case Some(r) => assert |Edited(body, [])| < |body|;
  }

  /** A host no block is written into has no section left to be found once its own is taken out. */
  ghost predicate NoneLeft(w: World, choice: Choice, p: Piece) {
    p.Host? ==>
      match Chosen(choice, FirstName(Shown(p)))
      case None => true
      case Some(c) =>
        Compile(w.env, ForHost(c, Shown(p))).None? ==>
          Located(Edited(p.body, []), BLOCK_BEGIN, BLOCK_END).None?
  }

  lemma SameForHost(c: Config, g: VirtualHost, h: VirtualHost)
    requires SameHost(g, h)
    ensures ForHost(c, g) == ForHost(c, h) && FirstName(g) == FirstName(h)
  {
  }

  lemma OwnLinesNone(env: Env, c: Config)
    requires SaneEnv(env)
    ensures Compile(env, c).None? ==> OwnLines(env, c) == []
    ensures Compile(env, c).Some? ==> IsOwnBlock(OwnLines(env, c))
  {
    hide Compile, IsOwnBlock;
    if Compile(env, c).Some? { CompiledIsOwn(env, c); }
  }

  /** What is written to a host that was written to. */
  lemma WrittenAgain(w: World, choice: Choice, p: Piece, c: Config)
    requires SaneEnv(w.env) && p.Host? && Body(p.body) && AllClosed(p.body) && TidyBody(p.body)
    requires Chosen(choice, FirstName(Shown(p))) == Some(c) && NewBody(w, choice, p).Ok?
    ensures var q := p.(body := NewBody(w, choice, p).value);
            NewBody(w, choice, q) == Ok(Edited(q.body, OwnLines(w.env, ForHost(c, Shown(p)))))
  {
    hide Body, AllClosed, TidyBody, Refusal, OwnLines, AddressesOf, HostOf, ForHost, Neutral, Located, Chosen, FirstName, SameHost, Edited, IsOwnBlock;
    var narrowed := ForHost(c, Shown(p));
    var q := p.(body := NewBody(w, choice, p).value);
    NewBodyFits(w, choice, p);
    SameForHost(c, Shown(p), Shown(q));
    SectionSplits(p.body, OwnLines(w.env, narrowed), w.env, narrowed, AddressesOf(p.head), w.tree);
  }

  lemma SectionSplits(body: seq<LogicalLine>, x: seq<LogicalLine>, env: Env, c: Config, addresses: seq<string>,
                      tree: Option<Tree>)
    requires SaneEnv(env) && TidyBody(body) && x == OwnLines(env, c)
    requires Refusal(env, c, HostOf(addresses, body, 0), tree).None?
    ensures Refusal(env, c, HostOf(addresses, Edited(body, x), 0), tree).None?
  {
    hide Refusal, OwnLines, HostOf, Neutral, Located, Edited, IsOwnBlock;
    var a, r, n := EditSplits(body, x);
    NothingIsNeutral();
    if Located(body, BLOCK_BEGIN, BLOCK_END).Some? { OwnIsNeutral(r); }
    WrittenIsNotRefused(env, c, addresses, a, r, n, tree);
  }

  /** A host that was written to is as it should be unless no block was to be written and a second
      section came to light. */
  lemma PieceSettles(w: World, choice: Choice, p: Piece)
    requires SaneEnv(w.env) && p.Host? && Body(p.body) && AllClosed(p.body) && TidyBody(p.body)
    requires NewBody(w, choice, p).Ok?
    ensures CurrentBody(w, choice, p.(body := NewBody(w, choice, p).value)) <==> NoneLeft(w, choice, p)
  {
    hide Body, AllClosed, TidyBody, Refusal, OwnLines, AddressesOf, HostOf, ForHost, Located, Chosen, FirstName, Edited, IsOwnBlock, Compile;
    match Chosen(choice, FirstName(Shown(p)))
    case None =>
    case Some(c) =>
      var narrowed := ForHost(c, Shown(p));
      WrittenAgain(w, choice, p, c);
      OwnLinesNone(w.env, narrowed);
      if Compile(w.env, narrowed).Some? {
        EditedAgain(p.body, OwnLines(w.env, narrowed));
      } else {
        TakingOutChanges(Edited(p.body, []));
      }
  }

  // ---- a file that was written ----

  ghost predicate NoneLeftOver(w: World, choice: Choice, ps: seq<Piece>) {
    forall k | 0 <= k < |ps| :: NoneLeft(w, choice, ps[k])
  }

  ghost predicate AllSettled(w: World, choice: Choice, ps: seq<Piece>) {
    forall k | 0 <= k < |ps| && ps[k].Host? :: CurrentBody(w, choice, ps[k])
  }

  /** A file stays as it is under an apply exactly when every host does. */
  lemma UnchangedFile(w: World, choice: Choice, content: string, ps: seq<Piece>)
    requires SaneEnv(w.env) && FileIs(content, ps)
    ensures Applied(w, choice, content) == Ok(content) <==> AllSettled(w, choice, ps)
  {
    hide FileIs, Turn, Hosts, Rewrite, CurrentBody, HostCount;
    var count := |Hosts(content)|;
    UnchangedRun(w, choice, content, 0, count);
    if AllSettled(w, choice, ps) {
      forall k | 0 <= k < count
        ensures Turn(w, choice, content, k, count) == Ok(content)
      {
        var front, p, back := HostSplit(content, k);
        SameReading(content, ps, front + [p] + back);
        assert ps[|front|] == p;
        TurnUnchanged(w, choice, content, front, p, back);
      }
    }
    if forall k | 0 <= k < count :: Turn(w, choice, content, k, count) == Ok(content) {
      forall j | 0 <= j < |ps| && ps[j].Host?
        ensures CurrentBody(w, choice, ps[j])
      {
        assert ps == ps[..j] + [ps[j]] + ps[j + 1..];
        TurnUnchanged(w, choice, content, ps[..j], ps[j], ps[j + 1..]);
      }
    }
  }

  lemma SameReading(content: string, ps: seq<Piece>, qs: seq<Piece>)
    requires FileIs(content, ps) && FileIs(content, qs)
    ensures ps == qs
  {
    hide FileIs;
    ReadsBack(content, ps);
    ReadsBack(content, qs);
  }

  /** What a second apply does, on any file whose sections are blocks as this project writes them:
      it succeeds and changes nothing if and only if no host that no block is written into had a
      second section behind the one taken out. */
  lemma ApplyTwiceIsOnce(w: World, choice: Choice, content: string)
    requires SaneEnv(w.env) && Tidy(Pieces(Logical(content))) && Applied(w, choice, content).Ok?
    ensures Applied(w, choice, Applied(w, choice, content).value) == Applied(w, choice, content)
       <==> NoneLeftOver(w, choice, Pieces(Logical(content)))
  {
    hide FileIs, TidyBody, Pieces, Logical, Plan, TextOf, Applied, CurrentBody, NoneLeft, Body, AllClosed, NewBody;
    var ps := Pieces(Logical(content));
    EveryFile(content);
    ApplyIsOnePass(w, choice, content);
    var qs := Plan(w, choice, ps).value;
    PlanIsPointwise(w, choice, ps);
    forall k | 0 <= k < |ps|
      ensures ps[k].Host? == qs[k].Host? && (ps[k].Host? ==> (CurrentBody(w, choice, qs[k]) <==> NoneLeft(w, choice, ps[k])))
    {
      assert PlanPiece(w, choice, ps[k]) == Ok(qs[k]);
      if ps[k].Host? {
        assert TidyBody(ps[k].body);
        PieceIsBody(content, ps, k);
        PieceSettles(w, choice, ps[k]);
      }
    }
    OutsideHasNone(w, choice, ps);
    UnchangedFile(w, choice, TextOf(qs), qs);
  }

  lemma OutsideHasNone(w: World, choice: Choice, ps: seq<Piece>)
    ensures forall k | 0 <= k < |ps| && !ps[k].Host? :: NoneLeft(w, choice, ps[k])
  {
  }

  /** After an apply that was not refused, its site is current in just that case. */
  lemma AppliedIsCurrent(w: World, content: string, name: string, c: Config)
    requires SaneEnv(w.env) && Tidy(Pieces(Logical(content))) && Applied(w, OneSite(name, c), content).Ok?
    ensures AllCurrent(w, Applied(w, OneSite(name, c), content).value, name, c)
       <==> NoneLeftOver(w, OneSite(name, c), Pieces(Logical(content)))
  {
    hide *;
    ApplyTwiceIsOnce(w, OneSite(name, c), content);
    CurrentMeansNothingToApply(w, Applied(w, OneSite(name, c), content).value, name, c);
  }

  /** A file with no section at all, or one in each host, is never such a file. */
  lemma CleanHasNoneLeft(w: World, choice: Choice, ps: seq<Piece>)
    requires Clean(ps)
    ensures NoneLeftOver(w, choice, ps)
  {
    hide Located, Compile, HostOf, AddressesOf, ForHost, Chosen;
    forall k | 0 <= k < |ps|
      ensures NoneLeft(w, choice, ps[k])
    {
      if ps[k].Host? {
        assert CleanBody(ps[k].body);
        TakingOutChanges(ps[k].body);
      }
    }
  }

  // ---- a file that takes two applies ----

  /** Nothing to block and nothing to serve; and the generated `robots.txt` alone. */
  const NOTHING := Config([], Forbidden, false, [], [], [], false)
  const ROBOTS := Config([], Forbidden, true, [], [], [], false)

  lemma NothingCompiles(env: Env, h: VirtualHost)
    ensures Compile(env, ForHost(NOTHING, h)).None? && Compile(env, ROBOTS).Some?
  {
  }

  /** A host around any lines. */
  function HostAround(address: string, body: seq<LogicalLine>): Piece {
    var opening := "    " + ("<" + ("VirtualHost" + " " + ConfQuoted(address)) + ">");
    var closing := "    " + ("<" + ("/" + "VirtualHost") + ">");
    Host(LogicalLine(opening + "\n", opening), body, LogicalLine(closing + "\n", closing))
  }

  lemma HostLower()
    ensures Lower("VirtualHost") == HOST && Letters("VirtualHost")
  {
  }

  lemma HostAroundIs(address: string, body: seq<LogicalLine>)
    requires NoBreak(address)
    ensures var p := HostAround(address, body);
            OpensHost(p.head) && ClosesHost(p.tail) && Closed(p.head) && Closed(p.tail)
  {
    hide TextKind, Trim, Words, Lower, FirstLine, ConfQuoted, Closed, Letters, NoBreak;
    HostLower();
    QuotedUnbroken(address);
    DirectoryReads("VirtualHost", address, "    ");
    OutReads("VirtualHost", "    ");
  }

  lemma OneHostFile(p: Piece)
    requires p.Host? && OpensHost(p.head) && ClosesHost(p.tail) && Closed(p.head) && Closed(p.tail)
    requires Body(p.body) && AllClosed(p.body)
    ensures FileIs(TextOf([p]), [p])
  {
    hide OpensHost, ClosesHost, Body, FirstLine, Raw, Logical, Pieces;
    var ls := PieceLines(p);
    SolidInFront(p, []);
    NoPieces();
    assert ls + [] == ls && [p] + [] == [p];
    FlattenCons(p, []);
    assert Flatten([]) == [];
    assert WellFormed(ls) by {
      assert ls == [p.head] + p.body + [p.tail];
    }
    LogicalOfRaw(ls);
  }

  lemma NeutralTwice(x: seq<LogicalLine>)
    requires Neutral(x)
    ensures Neutral(x + x)
  {
    hide Closed, Quiet, StackAfter;
    forall open
      ensures StackAfter(x + x, open) == open
    {
      StackConcat(x, x, open);
    }
  }

  lemma NamelessHost(addresses: seq<string>)
    ensures FirstName(HostOf(addresses, [], 0)) == "_" && Body([])
  {
    hide AddressesTls;
  }

  lemma NeutralHost(addresses: seq<string>, x: seq<LogicalLine>)
    requires Neutral(x)
    ensures FirstName(HostOf(addresses, x, 0)) == "_" && Body(x)
  {
    hide Quiet, AllClosed, Balanced, Body, HostOf;
    NamelessHost(addresses);
    NothingIsNeutral();
    var none: seq<LogicalLine> := [];
    assert none + x + none == x && none + none + none == none;
    SwapInBody(none, none, none, x);
    SwapKeepsHost(addresses, none, none, none, x, 0, 0);
  }

  /** A host with this project's block pasted in twice, for whose site there is nothing to block or
      serve any more: the first apply takes one section out, and only the second one the other. */
  lemma PastedTwiceTakesTwo(w: World, address: string)
    requires SaneEnv(w.env) && NoBreak(address)
    ensures var x := OwnLines(w.env, ROBOTS);
            var p := HostAround(address, x + x);
            var content := TextOf([p]);
            && FileIs(content, [p]) && Tidy([p])
            && Applied(w, OneSite("_", NOTHING), content).Ok?
            && Applied(w, OneSite("_", NOTHING), Applied(w, OneSite("_", NOTHING), content).value)
               != Applied(w, OneSite("_", NOTHING), content)
  {
    hide *;
    var x := OwnLines(w.env, ROBOTS);
    var p := HostAround(address, x + x);
    var choice := OneSite("_", NOTHING);
    HostParts(address, x + x);
    NothingCompiles(w.env, Shown(p));
    OwnLinesNone(w.env, ROBOTS);
    OwnIsNeutral(x);
    NeutralTwice(x);
    HostAroundIs(address, x + x);
    NeutralHost(AddressesOf(p.head), x + x);
    NeutralClosed(x + x);
    OneHostFile(p);
    ReadsBack(TextOf([p]), [p]);
    TwoLocated(w, p, x);
    ApplyIsOnePass(w, choice, TextOf([p]));
    ApplyTwiceIsOnce(w, choice, TextOf([p]));
  }

  lemma NeutralClosed(x: seq<LogicalLine>)
    requires Neutral(x)
    ensures AllClosed(x)
  {
  }

  lemma HostParts(address: string, body: seq<LogicalLine>)
    ensures var p := HostAround(address, body);
            p.Host? && p.body == body && Shown(p) == HostOf(AddressesOf(p.head), body, 0)
  {
  }

  lemma TwoLocated(w: World, p: Piece, x: seq<LogicalLine>)
    requires p.Host? && p.body == x + x && IsOwnBlock(x) && FirstName(Shown(p)) == "_"
    requires Compile(w.env, ForHost(NOTHING, Shown(p))).None?
    ensures Tidy([p]) && !NoneLeftOver(w, OneSite("_", NOTHING), [p])
    ensures Plan(w, OneSite("_", NOTHING), [p]).Ok?
  {
    hide IsOwnBlock, Located, HostOf, Compile, AddressesOf, FirstName, WithoutH2;
    OwnIsLocated(x, x);
    OwnIsLocated(x, []);
    assert (x + x)[0..|x|] == x && (x + x)[|x|..] == x && x + [] == x;
    assert Edited(p.body, []) == x by { assert [] + [] + x == x; }
    assert [p][0] == p && [p][1..] == [];
    assert !NoneLeft(w, OneSite("_", NOTHING), p);
  }
}

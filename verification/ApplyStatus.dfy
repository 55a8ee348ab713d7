/** Whether what is written in a file is what a configuration renders to, and does what it says
    (`src/apache.rs`, `site_apply_status`). */
module ApplyStatus {
  import opened Text
  import opened ConfText
  import opened ConfWords
  import opened ConfHosts
  import opened BlockConfig
  import opened RewriteProgram
  import opened BlockText
  import opened OwnBlock
  import opened BlockEdits
  import opened ApplyBlocks
  import opened ApplyTheorems
  import opened BlockRemoval

  datatype Status = NotFound | UpToDate | Stale

  /** The text of a host's block, as it stands in the file. */
  function BlockIn(content: string, host: VirtualHost): Option<string> {
    match LocateMarked(content, host, BLOCK_BEGIN, BLOCK_END)
    case None => None
    case Some(s) => if s.start <= s.end <= |content| then Some(content[s.start..s.end]) else None
  }

  /** A host whose block is the one its configuration renders to, and would not be refused. */
  predicate Current(w: World, content: string, host: VirtualHost, c: Config) {
    var narrowed := ForHost(c, host);
    Refusal(w.env, narrowed, host, w.tree).None? && BlockIn(content, host) == BlockTextOf(w.env, narrowed)
  }

  /** What an apply of one site's configuration still has to do. The file may be unreadable, and
      the trust file a configuration leans on may not be current. */
  ghost predicate AllCurrent(w: World, content: string, name: string, c: Config) {
    forall k | 0 <= k < |Hosts(content)| ::
      FirstName(Hosts(content)[k]) == name ==> Current(w, content, Hosts(content)[k], c)
  }

  ghost predicate HasSite(content: string, name: string) {
    exists k | 0 <= k < |Hosts(content)| :: FirstName(Hosts(content)[k]) == name
  }

  method SiteApplyStatus(w: World, file: Option<string>, name: string, c: Config, trustCurrent: bool)
    returns (status: Status)
    ensures status == Status.NotFound <==> file.None? || !HasSite(file.value, name)
    ensures status == UpToDate <==>
              file.Some? && HasSite(file.value, name) && AllCurrent(w, file.value, name, c) && trustCurrent
  {
    hide Current, HostsOf, Pieces, Logical;
    if file.None? {
      return Status.NotFound;
    }
    var content := file.value;
    var hosts := VirtualHosts(content);
    HostsAre(content);
    hide Hosts;
    var found, current := false, true;
    for k := 0 to |hosts|
      invariant found <==> exists j | 0 <= j < k :: FirstName(hosts[j]) == name
      invariant current <==> forall j | 0 <= j < k :: FirstName(hosts[j]) == name ==> Current(w, content, hosts[j], c)
    {
      if FirstName(hosts[k]) == name {
        found := true;
        current := current && Current(w, content, hosts[k], c);
      }
    }
    return if !found then Status.NotFound else if current && trustCurrent then UpToDate else Stale;
  }

  // ---- a host is current exactly when its turn changes nothing ----

  /** The same, on the lines of a host. */
  ghost predicate CurrentBody(w: World, choice: Choice, p: Piece)
    requires p.Host?
  {
    NewBody(w, choice, p) == Ok(p.body)
  }

  /** In the lines of a well-formed file, a different body is a different text. */
  lemma {:induction false} RawDiffers(a: seq<LogicalLine>, b: seq<LogicalLine>, c: seq<LogicalLine>, d: seq<LogicalLine>)
    requires WellFormed(a + b + d) && WellFormed(a + c + d) && Raw(a + b + d) == Raw(a + c + d)
    ensures b == c
  {
    hide Raw, WellFormed;
    LogicalOfRaw(a + b + d);
    LogicalOfRaw(a + c + d);
    var x, y := a + b + d, a + c + d;
    assert |b| == |c|;
    assert x[|a|..|a| + |b|] == b && y[|a|..|a| + |c|] == c;
  }

  lemma NewBodyClosed(w: World, choice: Choice, p: Piece)
    requires p.Host? && AllClosed(p.body) && SaneEnv(w.env) && NewBody(w, choice, p).Ok?
    ensures AllClosed(NewBody(w, choice, p).value)
  {
    hide AllClosed, Refusal, OwnLines, Edited, AddressesOf, HostOf, ForHost, Balanced, Quiet;
    match Chosen(choice, FirstName(Shown(p)))
    case None =>
    case Some(c) =>
      var block := OwnLines(w.env, ForHost(c, Shown(p)));
      OwnLinesNeutral(w.env, ForHost(c, Shown(p)));
      var a, r, n := EditSplits(p.body, block);
      ClosedParts(a, r, n);
      ClosedJoined(a, block, n);
  }

  /** A host's turn leaves the text as it is exactly when it leaves its lines so. */
  lemma TurnUnchanged(w: World, choice: Choice, content: string, front: seq<Piece>, p: Piece, back: seq<Piece>)
    requires FileIs(content, front + [p] + back) && p.Host? && SaneEnv(w.env)
    ensures HostCount(front) < |Hosts(content)|
    ensures Turn(w, choice, content, HostCount(front), |Hosts(content)|) == Ok(content) <==> CurrentBody(w, choice, p)
  {
    hide FileIs, NewBody, Turn, Raw, LinesBefore, LinesAfter, AllClosed, Hosts, HostCount, WellFormed, AddressesOf, HostOf;
    TurnReads(w, choice, content, front, p, back);
    SectionIs(content, front, p, back);
    AroundIs(content, LinesBefore(front, p), p.body, LinesAfter(p, back));
    if NewBody(w, choice, p).Ok? {
      var body := NewBody(w, choice, p).value;
      HostIsBody(content, front, p, back);
      NewBodyClosed(w, choice, p);
      WellFormedMiddle(LinesBefore(front, p), p.body, LinesAfter(p, back), body);
      if Raw(LinesBefore(front, p) + body + LinesAfter(p, back)) == content {
        RawDiffers(LinesBefore(front, p), body, p.body, LinesAfter(p, back));
      }
    }
  }

  lemma AroundIs(content: string, before: seq<LogicalLine>, body: seq<LogicalLine>, after: seq<LogicalLine>)
    requires Around(content, before, body, after)
    ensures WellFormed(before + body + after) && content == Raw(before + body + after) && after != []
  {
    hide Raw, WellFormed, Logical;
  }

  /** A host's block in the text is the one in its lines. */
  lemma BlockInIs(content: string, front: seq<Piece>, p: Piece, back: seq<Piece>)
    requires FileIs(content, front + [p] + back) && p.Host?
    ensures BlockIn(content, HostAfter(front, p))
         == match Located(p.body, BLOCK_BEGIN, BLOCK_END)
            case None => None
            case Some(r) => Some(Raw(p.body[r.from..r.to]))
  {
    hide FileIs, Located, Raw, LinesBefore, LinesAfter, HostOf, AddressesOf, LocateMarked, Around;
    LocatedFits(content, front, p, back, BLOCK_BEGIN, BLOCK_END);
    match Located(p.body, BLOCK_BEGIN, BLOCK_END)
    case None =>
    case Some(r) =>
      AroundIs(content, LinesBefore(front, p), p.body, LinesAfter(p, back));
      SliceIs(content, LinesBefore(front, p), p.body, LinesAfter(p, back), r);
  }

  lemma SliceIs(content: string, before: seq<LogicalLine>, body: seq<LogicalLine>, after: seq<LogicalLine>, r: Range)
    requires content == Raw(before + body + after) && r.from <= r.to <= |body|
    ensures var s := SpanOf(body, |Raw(before)|, r);
            s.start <= s.end <= |content| && content[s.start..s.end] == Raw(body[r.from..r.to])
  {
    hide Raw;
    var a, m, b := body[..r.from], body[r.from..r.to], body[r.to..];
    assert body == a + m + b;
    var front, back := before + a, b + after;
    assert before + body + after == front + (m + back);
    RawConcat(front, m + back);
    RawConcat(m, back);
    RawConcat(before, a);
    RawConcat(a, m);
    assert body[..r.to] == a + m;
  }

  /** Blocks are told apart by their text. */
  lemma BlockTextTells(env: Env, c: Config, ls: seq<LogicalLine>)
    requires SaneEnv(env) && AllClosed(ls)
    ensures Some(Raw(ls)) == BlockTextOf(env, c) ==> ls == OwnLines(env, c)
    ensures Compile(env, c).Some? ==> Some(Raw(OwnLines(env, c))) == BlockTextOf(env, c) && OwnLines(env, c) != []
    ensures Compile(env, c).None? ==> BlockTextOf(env, c) == None && OwnLines(env, c) == []
  {
    hide Raw, Closed, IsOwnBlock, Written, LoggedAll, BlockLines, Compile;
    if Compile(env, c).Some? {
      CompiledIsOwn(env, c);
      OwnNotEmpty(OwnLines(env, c));
      OwnClosed(OwnLines(env, c));
      if Raw(ls) == Raw(OwnLines(env, c)) {
        ClosedReadBack(ls);
        ClosedReadBack(OwnLines(env, c));
      }
    }
  }

  lemma OwnClosed(x: seq<LogicalLine>)
    requires IsOwnBlock(x)
    ensures AllClosed(x)
  {
    hide Closed, Quiet, Marks, Balanced;
  }

  lemma ClosedReadBack(ls: seq<LogicalLine>)
    requires AllClosed(ls)
    ensures Logical(Raw(ls)) == ls
  {
    hide Raw, FirstLine;
    LogicalOfClosed(ls, "");
    assert Raw(ls) + "" == Raw(ls);
    assert Logical("") == [];
  }

  /** A host of the site is current exactly when writing its configuration would change nothing. */
  lemma CurrentMeansUnchanged(w: World, content: string, front: seq<Piece>, p: Piece, back: seq<Piece>, name: string, c: Config)
    requires FileIs(content, front + [p] + back) && p.Host? && SaneEnv(w.env)
    ensures CurrentBody(w, OneSite(name, c), p)
       <==> (FirstName(HostAfter(front, p)) == name ==> Current(w, content, HostAfter(front, p), c))
  {
    hide FileIs, Located, Raw, LinesBefore, LinesAfter, HostOf, AddressesOf, BlockIn, OwnLines, BlockTextOf, Refusal, AllClosed, ForHost, Flatten, Compile;
    var place := |Raw(Flatten(front))| + |p.head.raw|;
    var host := HostAfter(front, p);
    SameName(AddressesOf(p.head), p.body, place, 0);
    if FirstName(host) == name {
      PlaceDoesNotMatter(w.env, c, AddressesOf(p.head), p.body, w.tree, place, 0);
      PlaceDoesNotMatter(w.env, ForHost(c, host), AddressesOf(p.head), p.body, w.tree, place, 0);
      var block := OwnLines(w.env, ForHost(c, host));
      HostIsBody(content, front, p, back);
      BlockInIs(content, front, p, back);
      BlockMeansSame(w.env, ForHost(c, host), p.body);
    }
  }

  /** A body is left alone by an edit exactly when its block is the one written. */
  lemma BlockMeansSame(env: Env, c: Config, body: seq<LogicalLine>)
    requires SaneEnv(env) && AllClosed(body)
    ensures Edited(body, OwnLines(env, c)) == body
       <==> BlockTextOf(env, c) == match Located(body, BLOCK_BEGIN, BLOCK_END)
                                   case None => None
                                   case Some(r) => Some(Raw(body[r.from..r.to]))
  {
    hide Located, Raw, OwnLines, BlockTextOf, AllClosed, Compile;
    var block := OwnLines(env, c);
    var a, r, n := EditSplits(body, block);
    ClosedMiddle(a, r, n);
    BlockTextTells(env, c, r);
    assert a + block + n == a + r + n <==> block == r by { MiddleSame(a, block, r, n); }
  }

  lemma MiddleSame(a: seq<LogicalLine>, b: seq<LogicalLine>, c: seq<LogicalLine>, d: seq<LogicalLine>)
    ensures a + b + d == a + c + d <==> b == c
  {
    if a + b + d == a + c + d {
      assert |b| == |c|;
      assert (a + b + d)[|a|..|a| + |b|] == b && (a + c + d)[|a|..|a| + |c|] == c;
    }
  }

  lemma ClosedMiddle(a: seq<LogicalLine>, b: seq<LogicalLine>, c: seq<LogicalLine>)
    requires AllClosed(a + b + c)
    ensures AllClosed(b)
  {
    hide Closed;
    forall k | 0 <= k < |b| ensures Closed(b[k]) { assert (a + b + c)[|a| + k] == b[k]; }
  }

  // ---- a turn, on the lines of the file ----

  /** The `i`th host of a file, and what is around it. */
  lemma HostSplit(content: string, i: nat) returns (front: seq<Piece>, p: Piece, back: seq<Piece>)
    requires i < |Hosts(content)|
    ensures FileIs(content, front + [p] + back) && p.Host? && HostCount(front) == i
    ensures Hosts(content)[i] == HostAfter(front, p)
  {
    hide FileIs, Pieces, Logical, HostOf, AddressesOf, Flatten, Raw, Hosts, HostsOf, HostCount;
    var ps := Pieces(Logical(content));
    EveryFile(content);
    HostsNumber(content, ps);
    HostsOfFile(content, ps);
    var j := HostAt(ps, i);
    HostsBefore(ps, i);
    front, p, back := ps[..j], ps[j], ps[j + 1..];
    assert ps == front + [p] + back;
    HostIs(front, p, back);
  }

  /** A turn in any file: the lines it reads as afterwards are those before, with one host's body
      another. */
  lemma TurnLines(w: World, choice: Choice, content: string, i: nat) returns (front: seq<Piece>, p: Piece, back: seq<Piece>)
    requires SaneEnv(w.env) && i < |Hosts(content)| && Turn(w, choice, content, i, |Hosts(content)|).Ok?
    ensures FileIs(content, front + [p] + back) && p.Host? && HostCount(front) == i
    ensures NewBody(w, choice, p).Ok?
    ensures var next := Turn(w, choice, content, i, |Hosts(content)|).value;
            && Logical(content) == LinesBefore(front, p) + p.body + LinesAfter(p, back)
            && Logical(next) == LinesBefore(front, p) + NewBody(w, choice, p).value + LinesAfter(p, back)
  {
    hide *;
    front, p, back := HostSplit(content, i);
    TurnReads(w, choice, content, front, p, back);
    var body := NewBody(w, choice, p).value;
    HostIsBody(content, front, p, back);
    NewBodyClosed(w, choice, p);
    SectionIs(content, front, p, back);
    AroundIs(content, LinesBefore(front, p), p.body, LinesAfter(p, back));
    AroundReads(content, LinesBefore(front, p), p.body, LinesAfter(p, back));
    WellFormedMiddle(LinesBefore(front, p), p.body, LinesAfter(p, back), body);
    LogicalOfRaw(LinesBefore(front, p) + body + LinesAfter(p, back));
  }

  lemma AroundReads(content: string, before: seq<LogicalLine>, body: seq<LogicalLine>, after: seq<LogicalLine>)
    requires Around(content, before, body, after)
    ensures Logical(content) == before + body + after
  {
    hide Raw, WellFormed, Logical;
  }

  /** Every file has as many hosts as it has host pieces. */
  lemma HostsCount(content: string)
    ensures |Hosts(content)| == HostCount(Pieces(Logical(content)))
  {
    hide FileIs, Pieces, Logical, Hosts, HostCount;
    EveryFile(content);
    HostsNumber(content, Pieces(Logical(content)));
  }

  // ---- what later turns cannot change ----

  ghost predicate AllSolid(ps: seq<Piece>) {
    forall k | 0 <= k < |ps| :: SolidPiece(ps[k])
  }

  /** A host counted after `front` is a piece after it. */
  lemma HostBeyond(front: seq<Piece>, more: seq<Piece>, j: nat)
    requires j < |front + more| && (front + more)[j].Host? && HostCount((front + more)[..j]) >= HostCount(front)
    ensures j >= |front|
  {
    hide HostCount;
    if j < |front| {
      var ps := front + more;
      assert front == ps[..j] + [front[j]] + front[j + 1..];
      CountConcat(ps[..j] + [front[j]], front[j + 1..]);
      CountConcat(ps[..j], [front[j]]);
      CountOne(front[j]);
    }
  }

  /** Turns of later hosts leave the pieces before them alone. */
  lemma TurnKeepsFront(w: World, choice: Choice, content: string, i: nat, front: seq<Piece>)
    requires SaneEnv(w.env) && i < |Hosts(content)| && Turn(w, choice, content, i, |Hosts(content)|).Ok?
    requires front <= Pieces(Logical(content)) && AllSolid(front) && HostCount(front) <= i
    ensures front <= Pieces(Logical(Turn(w, choice, content, i, |Hosts(content)|).value))
  {
    hide FileIs, Pieces, Logical, HostCount, Hosts, Turn, NewBody, SolidPiece, Flatten;
    var ps := Pieces(Logical(content));
    var next := Turn(w, choice, content, i, |Hosts(content)|).value;
    var before, p, back := TurnLines(w, choice, content, i);
    ReadsBack(content, before + [p] + back);
    assert ps == front + ps[|front|..];
    assert ps[..|before|] == before && ps[|before|] == p;
    HostBeyond(front, ps[|front|..], |before|);
    var between := before[|front|..];
    assert before == front + between;
    FlattenConcat(front, between);
    var body := NewBody(w, choice, p).value;
    var rest := Flatten(between) + [p.head] + body + LinesAfter(p, back);
    assert Logical(next) == Flatten(front) + rest;
    SolidPrefix(front, rest);
  }

  lemma {:induction false} RunKeepsFront(w: World, choice: Choice, content: string, i: nat, count: nat, front: seq<Piece>)
    requires SaneEnv(w.env) && Rewrite(w, choice, content, i, count).Ok?
    requires front <= Pieces(Logical(content)) && AllSolid(front) && HostCount(front) <= i
    ensures front <= Pieces(Logical(Rewrite(w, choice, content, i, count).value))
    decreases count - i
  {
    hide Pieces, Logical, HostCount, Hosts, Rewrite, AllSolid;
    RewriteStep(w, choice, content, i, count);
    if i < count {
      assert |Hosts(content)| == count by { TurnCounts(w, choice, content, i, count); }
      TurnKeepsFront(w, choice, content, i, front);
      RunKeepsFront(w, choice, Turn(w, choice, content, i, count).value, i + 1, count, front);
    }
  }

  lemma TurnCounts(w: World, choice: Choice, content: string, i: nat, count: nat)
    requires i < count && Turn(w, choice, content, i, count).Ok?
    ensures |Hosts(content)| == count
  {
    hide Hosts, ApplyBlock;
  }

  /** How many lines close a host. */
  function Closers(ls: seq<LogicalLine>): nat {
    if ls == [] then 0 else (if ClosesHost(ls[0]) then 1 else 0) + Closers(ls[1..])
  }

  lemma {:induction false} ClosersConcat(a: seq<LogicalLine>, b: seq<LogicalLine>)
    ensures Closers(a + b) == Closers(a) + Closers(b)
  {
    hide ClosesHost;
    if a == [] {
      assert a + b == b;
    } else {
      assert (a + b)[1..] == a[1..] + b;
      ClosersConcat(a[1..], b);
    }
  }

  lemma {:induction false} QuietHasNoClosers(ls: seq<LogicalLine>)
    requires Neutral(ls)
    ensures Closers(ls) == 0
  {
    hide KindOf, Marks, Closed, QuietDirective;
    NoClosers(ls) by { forall k | 0 <= k < |ls| ensures !ClosesHost(ls[k]) { assert Quiet(ls[k]); } }
  }

  lemma {:induction false} NoClosers(ls: seq<LogicalLine>)
    requires forall k | 0 <= k < |ls| :: !ClosesHost(ls[k])
    ensures Closers(ls) == 0
  {
    hide ClosesHost;
    if ls != [] { NoClosers(ls[1..]); }
  }

  /** What a chosen host's lines become: a neutral block for the section that was there. */
  lemma NewBodyParts(w: World, choice: Choice, p: Piece)
      returns (a: seq<LogicalLine>, r: seq<LogicalLine>, n: seq<LogicalLine>, x: seq<LogicalLine>)
    requires SaneEnv(w.env) && p.Host? && NewBody(w, choice, p).Ok?
    ensures p.body == a + r + n && NewBody(w, choice, p).value == a + x + n
    ensures Neutral(x) || x == r == []
    ensures x == [] || IsOwnBlock(x) 
    ensures match Located(p.body, BLOCK_BEGIN, BLOCK_END)
            case None => a == [] == r
            case Some(range) => a == p.body[..range.from] && (r == p.body[range.from..range.to] || r == x == [])
  {
    hide Located, Refusal, OwnLines, Edited, AddressesOf, HostOf, ForHost, Neutral, IsOwnBlock;
    match Chosen(choice, FirstName(Shown(p)))
    case None =>
      match Located(p.body, BLOCK_BEGIN, BLOCK_END) {
        case None =>
          a, r, n, x := [], [], p.body, [];
        case Some(range) =>
          a, r, n, x := p.body[..range.from], [], p.body[range.from..], [];
      }
      assert a + r + n == p.body;
    case Some(c) =>
      var narrowed := ForHost(c, Shown(p));
      x := OwnLines(w.env, narrowed);
      OwnLinesNeutral(w.env, narrowed);
      OwnLinesOrNone(w.env, narrowed);
      a, r, n := EditSplits(p.body, x);
  }

  lemma TurnAddsNoCloser(w: World, choice: Choice, content: string, i: nat)
    requires SaneEnv(w.env) && i < |Hosts(content)| && Turn(w, choice, content, i, |Hosts(content)|).Ok?
    ensures Closers(Logical(Turn(w, choice, content, i, |Hosts(content)|).value)) <= Closers(Logical(content))
  {
    hide FileIs, Logical, HostCount, Hosts, Turn, NewBody, LinesBefore, LinesAfter, Neutral, Closers, Located, IsOwnBlock;
    var front, p, back := TurnLines(w, choice, content, i);
    var a, r, n, x := NewBodyParts(w, choice, p);
    if x != [] { QuietHasNoClosers(x); } else { assert Closers([]) == 0 by { NoneClosers(); } }
    MiddleClosers(LinesBefore(front, p), a, r, n, LinesAfter(p, back));
    MiddleClosers(LinesBefore(front, p), a, x, n, LinesAfter(p, back));
  }

  lemma NoneClosers()
    ensures Closers([]) == 0
  {
  }

  lemma MiddleClosers(b: seq<LogicalLine>, a: seq<LogicalLine>, r: seq<LogicalLine>, n: seq<LogicalLine>, c: seq<LogicalLine>)
    ensures Closers(b + (a + r + n) + c) == Closers(b) + Closers(a) + Closers(r) + Closers(n) + Closers(c)
  {
    hide Closers;
    ClosersConcat(b + (a + r + n), c);
    ClosersConcat(b, a + r + n);
    ClosersConcat(a + r, n);
    ClosersConcat(a, r);
  }

  lemma {:induction false} RunAddsNoCloser(w: World, choice: Choice, content: string, i: nat, count: nat)
    requires SaneEnv(w.env) && Rewrite(w, choice, content, i, count).Ok?
    ensures Closers(Logical(Rewrite(w, choice, content, i, count).value)) <= Closers(Logical(content))
    decreases count - i
  {
    hide Logical, Hosts, Rewrite, Closers, Turn;
    RewriteStep(w, choice, content, i, count);
    if i < count {
      TurnCounts(w, choice, content, i, count);
      TurnAddsNoCloser(w, choice, content, i);
      RunAddsNoCloser(w, choice, Turn(w, choice, content, i, count).value, i + 1, count);
    }
  }

  // ---- a change is never undone by what follows ----

  /** Taking lines out of a host lets its closing line be found later only if it was one of
      them. */
  lemma {:induction false} ShiftFindsTail(r: seq<LogicalLine>, n: seq<LogicalLine>, tail: LogicalLine, rest: seq<LogicalLine>)
    requires r != [] && r + n + [tail] <= n + [tail] + rest
    ensures tail in r
    decreases |n|
  {
    var left, right := r + n + [tail], n + [tail] + rest;
    assert left[|n|] == right[|n|] == tail;
    if |n| < |r| {
      assert r[|n|] == tail;
    } else {
      var m := |n| - |r|;
      assert n[m] == left[|n|];
      var short, after := n[..m], n[m + 1..] + [tail];
      assert n == short + [tail] + n[m + 1..];
      assert r + short + [tail] == left[..|n| + 1];
      assert short + [tail] + after == right[..|n| + 1];
      ShiftFindsTail(r, short, tail, after);
    }
  }

  lemma {:induction false} CloserCounts(ls: seq<LogicalLine>, l: LogicalLine)
    requires l in ls && ClosesHost(l)
    ensures Closers(ls) > 0
  {
    hide ClosesHost;
    if ls[0] != l { CloserCounts(ls[1..], l); }
  }

  lemma {:induction false} MarkIsFirst(ls: seq<LogicalLine>, mark: string)
    ensures MarkAt(ls, mark).Some? ==> forall j | 0 <= j < MarkAt(ls, mark).value :: !Marks(ls[j], mark)
  {
    hide Marks;
    if ls != [] { MarkIsFirst(ls[1..], mark); }
  }

  /** A located section runs from its first line to the first closing marker after it. */
  lemma LocatedMarks(body: seq<LogicalLine>, r: Range)
    requires Located(body, BLOCK_BEGIN, BLOCK_END) == Some(r)
    ensures Marks(body[r.to - 1], BLOCK_END)
    ensures forall j | 0 <= j < r.to - r.from - 1 :: !Marks(body[r.from..r.to][j], BLOCK_END)
  {
    hide Marks, MarkAt;
    MarkIsFirst(body[r.from..], BLOCK_END);
    assert body[r.from..][r.to - r.from - 1] == body[r.to - 1];
    forall j | 0 <= j < r.to - r.from - 1
      ensures !Marks(body[r.from..r.to][j], BLOCK_END)
    {
      assert body[r.from..r.to][j] == body[r.from..][j];
    }
  }

  /** Two sections that start the same lines and each end at the first closing marker are one. */
  lemma SameSection(r: seq<LogicalLine>, x: seq<LogicalLine>, s: seq<LogicalLine>, t: seq<LogicalLine>)
    requires IsOwnBlock(x) && r != [] && Marks(r[|r| - 1], BLOCK_END)
    requires forall j | 0 <= j < |r| - 1 :: !Marks(r[j], BLOCK_END)
    requires r + s <= x + t
    ensures r == x
  {
    hide Marks, Quiet, Closed, Balanced;
    forall j | 0 <= j < |r|
      ensures r[j] == (x + t)[j]
    {
      assert (r + s)[j] == r[j];
    }
    assert |r| - 1 < |x| ==> r[|r| - 1] == x[|r| - 1];
    assert |x| - 1 < |r| ==> r[|x| - 1] == x[|x| - 1];
  }

  /** A body with no block in it does not start with one, nor does its host close inside one. */
  lemma NoBlockInFront(n: seq<LogicalLine>, tail: LogicalLine, x: seq<LogicalLine>, t: seq<LogicalLine>)
    requires IsOwnBlock(x) && Located(n, BLOCK_BEGIN, BLOCK_END) == None && ClosesHost(tail)
    ensures !(n + [tail] <= x + t)
  {
    hide Marks, Closed, Balanced, Located, OpensHost, ClosesHost, KindOf, QuietDirective;
    var s := n + [tail];
    if |n| < |x| {
      assert Quiet(x[|n|]);
      assert s[|n|] == tail && (x + t)[|n|] == x[|n|];
    } else {
      var after := n[|x|..];
      OwnIsLocated(x, after);
      assert n == n[..|x|] + after;
      assert n[..|x|] != x;
      assert s[..|x|] == n[..|x|] && (x + t)[..|x|] == x;
      assert |s| <= |x + t| ==> (x + t)[..|s|][..|x|] == (x + t)[..|x|];
    }
  }

  /** The same lines in front of two texts, one of which starts the other. */
  lemma CancelFront(a: seq<LogicalLine>, s: seq<LogicalLine>, t: seq<LogicalLine>)
    ensures a + s <= a + t <==> s <= t
  {
    if a + s <= a + t {
      assert (a + s)[|a|..] == s && (a + t)[|a|..][..|s|] == t[..|s|];
      assert (a + t)[..|a + s|][|a|..] == (a + t)[|a|..][..|s|];
    }
  }

  /** A changed section does not leave the host reading as it did. */
  lemma ChangedSectionShows(body: seq<LogicalLine>, a: seq<LogicalLine>, r: seq<LogicalLine>, n: seq<LogicalLine>,
                            x: seq<LogicalLine>, tail: LogicalLine, rest: seq<LogicalLine>)
    requires body == a + r + n && x != r && (x == [] || IsOwnBlock(x)) && ClosesHost(tail)
    requires match Located(body, BLOCK_BEGIN, BLOCK_END)
             case None => a == [] == r
             case Some(range) => a == body[..range.from] && r == body[range.from..range.to]
    requires a + r + n + [tail] <= a + x + n + [tail] + rest
    ensures x == [] && Closers(r) > 0
  {
    hide *;
    CancelAll(a, r, n, x, [tail], rest);
    if x == [] {
      EmptyBlockShows(r, n, tail, rest);
    } else {
      OwnSectionStays(body, a, r, n, x, tail, n + [tail] + rest);
    }
  }

  lemma CancelAll(a: seq<LogicalLine>, r: seq<LogicalLine>, n: seq<LogicalLine>, x: seq<LogicalLine>,
                  tail: seq<LogicalLine>, rest: seq<LogicalLine>)
    requires a + r + n + tail <= a + x + n + tail + rest
    ensures r + (n + tail) <= x + (n + tail + rest)
  {
    Regroup(a, r, n, tail);
    Regroup(a, x, n, tail);
    Regroup(a, x, n + tail, rest);
    assert a + x + n + tail + rest == a + x + (n + tail) + rest by { assert a + x + n + tail == a + x + (n + tail); }
    CancelFront(a, r + (n + tail), x + (n + tail + rest));
  }

  lemma Regroup(a: seq<LogicalLine>, b: seq<LogicalLine>, c: seq<LogicalLine>, d: seq<LogicalLine>)
    ensures a + b + c + d == a + (b + (c + d))
  {
  }

  lemma EmptyBlockShows(r: seq<LogicalLine>, n: seq<LogicalLine>, tail: LogicalLine, rest: seq<LogicalLine>)
    requires r != [] && ClosesHost(tail) && r + (n + [tail]) <= [] + (n + [tail] + rest)
    ensures Closers(r) > 0
  {
    hide *;
    assert [] + (n + [tail] + rest) == n + [tail] + rest && r + (n + [tail]) == r + n + [tail];
    ShiftFindsTail(r, n, tail, rest);
    CloserCounts(r, tail);
  }

  lemma OwnSectionStays(body: seq<LogicalLine>, a: seq<LogicalLine>, r: seq<LogicalLine>, n: seq<LogicalLine>,
                        x: seq<LogicalLine>, tail: LogicalLine, t: seq<LogicalLine>)
    requires body == a + r + n && IsOwnBlock(x) && ClosesHost(tail)
    requires match Located(body, BLOCK_BEGIN, BLOCK_END)
             case None => a == [] == r
             case Some(range) => a == body[..range.from] && r == body[range.from..range.to]
    requires r + (n + [tail]) <= x + t
    ensures r == x
  {
    hide Marks, Located, IsOwnBlock, ClosesHost;
    if Located(body, BLOCK_BEGIN, BLOCK_END).Some? {
      var range := Located(body, BLOCK_BEGIN, BLOCK_END).value;
      LocatedMarks(body, range);
      assert r[|r| - 1] == body[range.to - 1];
      SameSection(r, x, n + [tail], t);
    } else {
      assert body == n && r + (n + [tail]) == n + [tail];
      NoBlockInFront(n, tail, x, t);
    }
  }

  /** What a host that was written to reads as: closed somewhere, or swallowing the rest. */
  lemma NextPieces(front: seq<Piece>, head: LogicalLine, t: seq<LogicalLine>) returns (q: Piece, more: seq<Piece>)
    requires AllSolid(front) && OpensHost(head)
    ensures Pieces(Flatten(front) + [head] + t) == front + [q] + more
    ensures q.Host? ==> SolidPiece(q) && q.body + [q.tail] <= t
    ensures !q.Host? ==> q.Unclosed? && more == []
  {
    hide SolidPiece, Flatten, OpensHost, PieceLines, Pieces;
    assert Flatten(front) + [head] + t == Flatten(front) + ([head] + t);
    SolidPrefix(front, [head] + t);
    var rest;
    q, rest := PiecesStep([head] + t);
    more := Pieces(rest);
    FirstPieceOpens(head, t, q, rest);
    assert front + ([q] + more) == front + [q] + more;
  }

  lemma FirstPieceOpens(head: LogicalLine, t: seq<LogicalLine>, q: Piece, rest: seq<LogicalLine>)
    requires OpensHost(head) && [head] + t == PieceLines(q) + rest
    requires SolidPiece(q) || (q.Unclosed? && rest == [])
    ensures q.Host? ==> SolidPiece(q) && q.body + [q.tail] <= t
    ensures !q.Host? ==> q.Unclosed? && Pieces(rest) == []
  {
    hide OpensHost, ClosesHost, Body;
    assert ([head] + t)[0] == head && ([head] + t)[1..] == t;
    assert PieceLines(q) != [] && (PieceLines(q) + rest)[0] == PieceLines(q)[0];
    if q.Host? {
      assert (PieceLines(q) + rest)[1..] == q.body + [q.tail] + rest;
    }
  }

  /** If one host's turn changes the file, the turns after it never change it back. */
  lemma ChangeIsNeverUndone(w: World, choice: Choice, content: string, i: nat, count: nat)
    requires SaneEnv(w.env) && i < count == |Hosts(content)|
    requires Turn(w, choice, content, i, count).Ok? && Turn(w, choice, content, i, count).value != content
    ensures Rewrite(w, choice, Turn(w, choice, content, i, count).value, i + 1, count) != Ok(content)
  {
    hide *;
    var next := Turn(w, choice, content, i, count).value;
    var front, p, back := TurnLines(w, choice, content, i);
    var a, r, n, x := NewBodyParts(w, choice, p);
    RawOfLogical(content);
    RawOfLogical(next);
    assert x != r;
    PartsLocated(p.body, a, r, n, x);
    FrontIsSolid(content, front, p, back);
    var t := (a + x + n) + LinesAfter(p, back);
    AfterIs(front, p, back);
    assert Logical(next) == Flatten(front) + [p.head] + t;
    var q, more := NextPieces(front, p.head, t);
    if Rewrite(w, choice, next, i + 1, count) == Ok(content) {
      HostsCount(next);
      NextHosts(front, q, more);
      RewriteStep(w, choice, next, i + 1, count);
      if !q.Host? {
        if i + 1 < count { TurnCounts(w, choice, next, i + 1, count); }
      } else {
        SolidSnoc(front, q);
        PrefixOf(front, q, more);
        RunKeepsFront(w, choice, next, i + 1, count, front + [q]);
        ReadsBack(content, front + [p] + back);
        SameNext(front, q, p, back);
        assert a + r + n + [p.tail] <= a + x + n + [p.tail] + Flatten(back);
        ChangedSectionShows(p.body, a, r, n, x, p.tail, Flatten(back));
        RunAddsNoCloser(w, choice, next, i + 1, count);
        MiddleClosers(LinesBefore(front, p), a, r, n, LinesAfter(p, back));
        MiddleClosers(LinesBefore(front, p), a, x, n, LinesAfter(p, back));
        NoneClosers();
      }
    }
  }

  lemma PartsLocated(body: seq<LogicalLine>, a: seq<LogicalLine>, r: seq<LogicalLine>, n: seq<LogicalLine>, x: seq<LogicalLine>)
    requires body == a + r + n && x != r
    requires match Located(body, BLOCK_BEGIN, BLOCK_END)
             case None => a == [] == r
             case Some(range) => a == body[..range.from] && (r == body[range.from..range.to] || r == x == [])
    ensures match Located(body, BLOCK_BEGIN, BLOCK_END)
            case None => a == [] == r
            case Some(range) => a == body[..range.from] && r == body[range.from..range.to]
  {
    hide Located;
  }

  lemma FrontIsSolid(content: string, front: seq<Piece>, p: Piece, back: seq<Piece>)
    requires FileIs(content, front + [p] + back) && p.Host?
    ensures AllSolid(front) && OpensHost(p.head) && ClosesHost(p.tail)
  {
    hide Pieces, Logical, Raw, Flatten, WellFormed, Body, OpensHost, ClosesHost;
    SolidParts(front, p, back);
  }

  lemma AfterIs(front: seq<Piece>, p: Piece, back: seq<Piece>)
    requires p.Host?
    ensures LinesBefore(front, p) == Flatten(front) + [p.head] && LinesAfter(p, back) == [p.tail] + Flatten(back)
  {
    hide Flatten;
  }

  lemma NextHosts(front: seq<Piece>, q: Piece, more: seq<Piece>)
    ensures !q.Host? && more == [] ==> HostCount(front + [q] + more) == HostCount(front)
    ensures q.Host? ==> HostCount(front + [q]) == HostCount(front) + 1
  {
    hide HostCount;
    CountConcat(front + [q], more);
    CountConcat(front, [q]);
    CountOne(q);
    NoHosts();
  }

  lemma SolidSnoc(front: seq<Piece>, q: Piece)
    requires AllSolid(front) && SolidPiece(q)
    ensures AllSolid(front + [q])
  {
    hide SolidPiece;
  }

  lemma PrefixOf(front: seq<Piece>, q: Piece, more: seq<Piece>)
    ensures front + [q] <= front + [q] + more
  {
  }

  lemma SameNext(front: seq<Piece>, q: Piece, p: Piece, back: seq<Piece>)
    requires front + [q] <= front + [p] + back
    ensures q == p
  {
    assert (front + [q])[|front|] == (front + [p] + back)[|front|];
  }

  // ---- up to date means an apply changes nothing ----

  lemma {:induction false} UnchangedRun(w: World, choice: Choice, content: string, i: nat, count: nat)
    requires SaneEnv(w.env) && count == |Hosts(content)|
    ensures Rewrite(w, choice, content, i, count) == Ok(content)
       <==> forall k | i <= k < count :: Turn(w, choice, content, k, count) == Ok(content)
    decreases count - i
  {
    hide Turn, Hosts, Rewrite;
    RewriteStep(w, choice, content, i, count);
    if i < count {
      UnchangedRun(w, choice, content, i + 1, count);
      if Turn(w, choice, content, i, count).Ok? && Turn(w, choice, content, i, count).value != content {
        ChangeIsNeverUndone(w, choice, content, i, count);
      }
    }
  }

  lemma HostIsCurrent(w: World, content: string, name: string, c: Config, k: nat)
    requires SaneEnv(w.env) && k < |Hosts(content)|
    ensures Turn(w, OneSite(name, c), content, k, |Hosts(content)|) == Ok(content)
       <==> (FirstName(Hosts(content)[k]) == name ==> Current(w, content, Hosts(content)[k], c))
  {
    hide *;
    var front, p, back := HostSplit(content, k);
    TurnUnchanged(w, OneSite(name, c), content, front, p, back);
    CurrentMeansUnchanged(w, content, front, p, back, name, c);
  }

  /** For every file, however its sections have been edited by hand: every host of a site is
      current exactly when an apply of the site's configuration succeeds and changes nothing. */
  lemma CurrentMeansNothingToApply(w: World, content: string, name: string, c: Config)
    requires SaneEnv(w.env)
    ensures AllCurrent(w, content, name, c) <==> Applied(w, OneSite(name, c), content) == Ok(content)
  {
    hide Turn, Hosts, Rewrite, Current;
    forall k | 0 <= k < |Hosts(content)|
      ensures Turn(w, OneSite(name, c), content, k, |Hosts(content)|) == Ok(content)
         <==> (FirstName(Hosts(content)[k]) == name ==> Current(w, content, Hosts(content)[k], c))
    {
      HostIsCurrent(w, content, name, c, k);
    }
    UnchangedRun(w, OneSite(name, c), content, 0, |Hosts(content)|);
  }
}

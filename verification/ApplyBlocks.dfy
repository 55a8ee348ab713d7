/** Writing blocks into every host of a file, one at a time, reading the file again after each
    (`src/apache.rs`). */
module ApplyBlocks {
  import opened Text
  import opened ConfText
  import opened ConfWords
  import opened ConfHosts
  import opened BlockConfig
  import opened RewriteProgram
  import opened BlockText
  import opened OwnBlock
  import opened BlockEdits

  /** A site's configuration, by name. */
  datatype Site = Site(name: string, config: Config)

  /** What an apply writes: a configuration for every host, or for one site's hosts alone. */
  datatype Choice = WholeFile(sites: seq<Site>, default: Config) | OneSite(name: string, config: Config)

  function FindSite(sites: seq<Site>, name: string): Option<Config> {
    if sites == [] then None
    else if sites[0].name == name then Some(sites[0].config)
    else FindSite(sites[1..], name)
  }

  function Chosen(choice: Choice, name: string): Option<Config> {
    match choice
    case WholeFile(sites, default) =>
      (match FindSite(sites, name) case Some(c) => Some(c) case None => Some(default))
    case OneSite(site, config) => if name == site then Some(config) else None
  }

  /** What the rest of an apply knows: the environment, and the configuration around the file. */
  datatype World = World(env: Env, tree: Option<Tree>)

  /** One host's turn, in a file that must still have `count` of them. */
  function Turn(w: World, choice: Choice, content: string, i: nat, count: nat): Result<string>
    requires i < count
  {
    var hosts := Hosts(content);
    if |hosts| != count then Err(HostsChanged)
    else
      match Chosen(choice, FirstName(hosts[i]))
      case None => Ok(content)
      case Some(c) => ApplyBlock(w.env, content, hosts[i], c, w.tree)
  }

  /** From host `i` on, one host at a time: the file is read again for each. */
  function Rewrite(w: World, choice: Choice, content: string, i: nat, count: nat): Result<string>
    decreases count - i
  {
    if i >= count then Ok(content)
    else
      match Turn(w, choice, content, i, count)
      case Err(why) => Err(why)
      case Ok(next) => Rewrite(w, choice, next, i + 1, count)
  }

  /** What an apply makes of a whole file. */
  function Applied(w: World, choice: Choice, content: string): Result<string> {
    Rewrite(w, choice, content, 0, |Hosts(content)|)
  }

  lemma HostsAre(content: string)
    ensures Hosts(content) == HostsOf(Pieces(Logical(content)), 0)
  {
  }

  lemma RewriteStep(w: World, choice: Choice, content: string, i: nat, count: nat)
    ensures i >= count ==> Rewrite(w, choice, content, i, count) == Ok(content)
    ensures i < count ==>
              Rewrite(w, choice, content, i, count)
              == match Turn(w, choice, content, i, count)
                 case Err(why) => Err(why)
                 case Ok(next) => Rewrite(w, choice, next, i + 1, count)
  {
    hide Turn;
  }

  /** Writes each site's block, or the default one, into every host. */
  method BlocksForFile(w: World, content: string, sites: seq<Site>, default: Config) returns (r: Result<string>)
    ensures r == Applied(w, WholeFile(sites, default), content)
  {
    hide Hosts, ApplyBlock, Rewrite, HostsOf, Pieces, Logical, FindSite;
    ghost var choice := WholeFile(sites, default);
    var text := content;
    var first := VirtualHosts(text);
    var count := |first|;
    HostsAre(text);
    for i := 0 to count
      invariant Rewrite(w, choice, text, i, count) == Applied(w, choice, content)
    {
      var hosts := VirtualHosts(text);
      HostsAre(text);
      RewriteStep(w, choice, text, i, count);
      if |hosts| != count {
        return Err(HostsChanged);
      }
      var found := FindSite(sites, FirstName(hosts[i]));
      var config := match found case Some(c) => c case None => default;
      var next := ApplyBlock(w.env, text, hosts[i], config, w.tree);
      if next.Err? {
        return next;
      }
      text := next.value;
    }
    RewriteStep(w, choice, text, count, count);
    return Ok(text);
  }

  /** Writes a configuration into one site's hosts. */
  method BlockForSite(w: World, content: string, name: string, config: Config) returns (r: Result<string>)
    ensures r == Applied(w, OneSite(name, config), content)
  {
    hide Hosts, ApplyBlock, Rewrite, HostsOf, Pieces, Logical;
    ghost var choice := OneSite(name, config);
    var text := content;
    var first := VirtualHosts(text);
    var count := |first|;
    HostsAre(text);
    for i := 0 to count
      invariant Rewrite(w, choice, text, i, count) == Applied(w, choice, content)
    {
      var hosts := VirtualHosts(text);
      HostsAre(text);
      RewriteStep(w, choice, text, i, count);
      if |hosts| != count {
        return Err(HostsChanged);
      }
      if FirstName(hosts[i]) == name {
        var next := ApplyBlock(w.env, text, hosts[i], config, w.tree);
        if next.Err? {
          return next;
        }
        text := next.value;
      }
    }
    RewriteStep(w, choice, text, count, count);
    return Ok(text);
  }

  // ---- a file as pieces ----

  function TextOf(ps: seq<Piece>): string {
    Raw(Flatten(ps))
  }

  /** A text, and the pieces it reads as. */
  ghost predicate FileIs(content: string, ps: seq<Piece>) {
    && Logical(content) == Flatten(ps) && Pieces(Flatten(ps)) == ps
    && content == TextOf(ps) && WellFormed(Flatten(ps)) && Solid(ps)
  }

  /** Every text is a file of its pieces. */
  lemma EveryFile(content: string)
    ensures FileIs(content, Pieces(Logical(content)))
  {
    hide Pieces, Logical, Flatten, Raw, WellFormed, Solid;
    RawOfLogical(content);
    FlattenPieces(Logical(content));
  }

  ghost predicate AllClosed(ls: seq<LogicalLine>) {
    forall k | 0 <= k < |ls| :: Closed(ls[k])
  }

  lemma ClosedBefore(a: seq<LogicalLine>, b: seq<LogicalLine>, c: seq<LogicalLine>)
    requires WellFormed(a + b + c) && c != []
    ensures AllClosed(a) && AllClosed(b)
  {
    hide Closed, Final;
    forall k | 0 <= k < |a| ensures Closed(a[k]) { assert (a + b + c)[k] == a[k]; }
    forall k | 0 <= k < |b| ensures Closed(b[k]) { assert (a + b + c)[|a| + k] == b[k]; }
  }

  /** Closed lines can stand in for the middle of well-formed ones. */
  lemma WellFormedMiddle(a: seq<LogicalLine>, b: seq<LogicalLine>, c: seq<LogicalLine>, other: seq<LogicalLine>)
    requires WellFormed(a + b + c) && c != [] && AllClosed(other)
    ensures WellFormed(a + other + c)
  {
    hide Closed, Final;
    ClosedBefore(a, b, c);
    var was, made := a + b + c, a + other + c;
    forall k | 0 <= k < |made| - 1
      ensures Closed(made[k])
    {
      if k < |a| { assert made[k] == a[k]; }
      else if k < |a| + |other| { assert made[k] == other[k - |a|]; }
      else { assert made[k] == was[k - |other| + |b|]; }
    }
    assert made[|made| - 1] == was[|was| - 1];
  }

  /** The lines around a host's body. */
  function LinesBefore(front: seq<Piece>, p: Piece): seq<LogicalLine>
    requires p.Host?
  {
    Flatten(front) + [p.head]
  }

  function LinesAfter(p: Piece, back: seq<Piece>): seq<LogicalLine>
    requires p.Host?
  {
    [p.tail] + Flatten(back)
  }

  lemma HostLines(front: seq<Piece>, p: Piece, back: seq<Piece>)
    requires p.Host?
    ensures Flatten(front + [p] + back) == LinesBefore(front, p) + p.body + LinesAfter(p, back)
  {
    hide Flatten;
    FlattenConcat(front + [p], back);
    FlattenConcat(front, [p]);
    FlattenOne(p);
  }

  lemma FlattenOne(p: Piece)
    ensures Flatten([p]) == PieceLines(p)
  {
    hide PieceLines;
    assert [p][1..] == [];
  }

  lemma SolidParts(front: seq<Piece>, p: Piece, back: seq<Piece>)
    requires Solid(front + [p] + back) && p.Host?
    ensures forall k | 0 <= k < |front| :: SolidPiece(front[k])
    ensures SolidPiece(p)
    ensures Solid(back)
  {
    hide SolidPiece;
    var all := front + [p] + back;
    forall k | 0 <= k < |front| ensures SolidPiece(front[k]) { assert all[k] == front[k]; }
    assert all[|front|] == p;
    forall k | 0 <= k < |back|
      ensures SolidPiece(back[k]) || (back[k].Unclosed? && k == |back| - 1)
    {
      assert all[|front| + 1 + k] == back[k];
    }
  }

  /** What is after a host reads the same whatever is before it. */
  lemma BackReads(front: seq<Piece>, p: Piece, back: seq<Piece>)
    requires Pieces(Flatten(front + [p] + back)) == front + [p] + back
    requires Solid(front + [p] + back) && p.Host?
    ensures Pieces(Flatten(back)) == back
  {
    hide Pieces, Flatten, SolidPiece;
    SolidParts(front, p, back);
    var solid := front + [p];
    forall k | 0 <= k < |solid| ensures SolidPiece(solid[k]) { if k < |front| { assert solid[k] == front[k]; } }
    SolidPrefix(solid, Flatten(back));
    FlattenConcat(solid, back);
    assert (solid + Pieces(Flatten(back)))[|solid|..] == (solid + back)[|solid|..];
  }

  /** A file with another body in one host, when that is the body of a host. */
  lemma FileWith(content: string, front: seq<Piece>, p: Piece, back: seq<Piece>, body: seq<LogicalLine>)
    requires FileIs(content, front + [p] + back) && p.Host? && Body(body) && AllClosed(body)
    ensures var q := front + [p.(body := body)] + back;
            FileIs(TextOf(q), q)
  {
    hide Pieces, Logical, Flatten, Raw, WellFormed, SolidPiece, AllClosed, Body;
    var q := p.(body := body);
    HostLines(front, p, back);
    HostLines(front, q, back);
    WellFormedMiddle(LinesBefore(front, p), p.body, LinesAfter(p, back), body);
    LogicalOfRaw(Flatten(front + [q] + back));
    SolidParts(front, p, back);
    SolidWith(p, body);
    BackReads(front, p, back);
    FlattenConcat(front, [q] + back);
    FlattenCons(q, back);
    assert front + [q] + back == front + ([q] + back);
    SolidPrefix(front, PieceLines(q) + Flatten(back));
    SolidInFront(q, Flatten(back));
    SolidAgain(front, q, back);
  }

  lemma SolidWith(p: Piece, body: seq<LogicalLine>)
    requires p.Host? && SolidPiece(p) && Body(body)
    ensures SolidPiece(p.(body := body))
  {
    hide Body, OpensHost, ClosesHost;
  }

  lemma SolidAgain(front: seq<Piece>, q: Piece, back: seq<Piece>)
    requires (forall k | 0 <= k < |front| :: SolidPiece(front[k])) && SolidPiece(q) && Solid(back)
    ensures Solid(front + [q] + back)
  {
    hide SolidPiece;
    var all := front + [q] + back;
    forall k | 0 <= k < |all|
      ensures SolidPiece(all[k]) || (all[k].Unclosed? && k == |all| - 1)
    {
      if k < |front| { assert all[k] == front[k]; }
      else if k > |front| { assert all[k] == back[k - |front| - 1]; }
    }
  }

  // ---- one step ----

  /** Writing into the host after `front` edits its lines, in the text. */
  lemma StepEdits(w: World, content: string, front: seq<Piece>, p: Piece, back: seq<Piece>, c: Config)
    requires FileIs(content, front + [p] + back) && p.Host? && SaneEnv(w.env)
    ensures var host := HostAfter(front, p);
            && HostCount(front) < |Hosts(content)| && Hosts(content)[HostCount(front)] == host
            && ApplyBlock(w.env, content, host, c, w.tree)
               == match Refusal(w.env, ForHost(c, host), host, w.tree)
                  case Some(why) => Err(why)
                  case None =>
                    Ok(Raw(LinesBefore(front, p) + Edited(p.body, OwnLines(w.env, ForHost(c, host))) + LinesAfter(p, back)))
  {
    hide Pieces, Logical, Flatten, Raw, WellFormed, Solid, Refusal, OwnLines, Edited, ApplyBlock, ForHost, AddressesOf, HostOf;
    var host := HostAfter(front, p);
    HostIs(front, p, back);
    HostLines(front, p, back);
    HostOfPlace(AddressesOf(p.head), p.body, |Raw(Flatten(front))| + |p.head.raw|);
    RawConcat(Flatten(front), [p.head]);
    RawOne(p.head);
    assert Around(content, LinesBefore(front, p), p.body, LinesAfter(p, back));
    ApplyEdits(w.env, content, LinesBefore(front, p), p.body, LinesAfter(p, back), host, c, w.tree);
  }
}

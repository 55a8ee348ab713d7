/** Reading NGINX's fields back out of an access-log line, around fields the client writes
    (`src/accesslog.rs`). */
module LogLines {
  import opened Text

  // ---- Rust's splitting ----

  /** `rsplit_once`. */
  function RSplitOnce(s: string, c: char): Option<Halves> {
    if s == "" then None
    else if s[|s| - 1] == c then Some(Halves(s[..|s| - 1], ""))
    else
      match RSplitOnce(s[..|s| - 1], c)
      case None => None
      case Some(h) => Some(Halves(h.before, h.after + [s[|s| - 1]]))
  }

  /** `split` on a character. */
  function Split(s: string, c: char): (parts: seq<string>)
    ensures parts != []
  {
    if s == "" then [""]
    else if s[0] == c then [""] + Split(s[1..], c)
    else
      var rest := Split(s[1..], c);
      [[s[0]] + rest[0]] + rest[1..]
  }

  /** `split_whitespace`. */
  function Fields(text: string): seq<string>
    decreases |text|
  {
    TrimStartShrinks(text);
    var s := TrimStart(text);
    if s == "" then [] else [s[..WordEnd(s)]] + Fields(s[WordEnd(s)..])
  }

  /** A number as `parse` reads one no larger than `max`: a plus sign may stand in front. */
  function ParseUpTo(s: string, max: nat): Option<nat> {
    match ParseNat(if s != "" && s[0] == '+' then s[1..] else s)
    case None => None
    case Some(n) => if n <= max then Some(n) else None
  }

  const U16_MAX := 0xFFFF
  const U64_MAX := 0xFFFF_FFFF_FFFF_FFFF

  // ---- the formats ----

  datatype ParsedLine = ParsedLine(
    ip: string, status: nat, path: string, query: bool, verb: string, request: string, referer: Option<string>,
    userAgent: string, time: Option<int>, host: Option<string>, trailing: seq<string>)

  /** What reads an address, a time stamp and a number of seconds. */
  datatype Readers = Readers(ip: string -> Option<string>, time: string -> Option<int>, seconds: string -> bool)

  /** A line's request and status, with no header and no host. */
  function RequestLine(ip: string, time: Option<int>, request: string, status: nat): ParsedLine {
    var parts := Fields(request);
    var verb := if parts == [] then "" else parts[0];
    var target := if |parts| < 2 then "" else parts[1];
    ParsedLine(ip, status, Before(target, '?'), '?' in target, verb, request, None, "", time, None, [])
  }

  /** Every second quoted field after the user agent. */
  function Trailing(quoted: seq<string>, from: nat): seq<string>
    decreases |quoted| - from
  {
    if from >= |quoted| then [] else [quoted[from]] + Trailing(quoted, from + 2)
  }

  /** The rest of a combined-style line, from just inside the quote that opens the request. */
  function ParseFromRequest(ip: string, time: Option<int>, rest: string): Option<ParsedLine> {
    match SplitOnce(rest, '"')
    case None => None
    case Some(h) =>
      var quoted := Split(h.after, '"');
      var fields := Fields(quoted[0]);
      if fields == [] then None
      else
        match ParseUpTo(fields[0], U16_MAX)
        case None => None
        case Some(status) =>
          Some(RequestLine(ip, time, h.before, status).(
            referer := Some(if |quoted| > 1 then quoted[1] else ""),
            userAgent := if |quoted| > 3 then quoted[3] else "",
            trailing := Trailing(quoted, 5)))
  }

  /** The combined format: the address first, the time between the last pair of brackets before
      the request. */
  function ParseCombined(r: Readers, line: string): Option<ParsedLine> {
    match SplitOnce(line, '"')
    case None => None
    case Some(h) =>
      var words := Fields(h.before);
      if words == [] then None
      else
        match r.ip(words[0])
        case None => None
        case Some(ip) => ParseFromRequest(ip, BracketedTime(r, h.before), h.after)
  }

  function BracketedTime(r: Readers, prefix: string): Option<int> {
    match RSplitOnce(prefix, '[')
    case None => None
    case Some(h) =>
      match SplitOnce(h.after, ']')
      case None => None
      case Some(stamp) => r.time(stamp.before)
  }

  /** One word of an unquoted tail, and what is after the space that ends it. */
  function Word(text: string): Halves {
    var t := TrimStart(text);
    match SplitOnce(t, ' ')
    case None => Halves(t, "")
    case Some(h) => h
  }

  /** The tail of NPMplus's released format, whose headers are unquoted. */
  function ParseUnquotedTail(ip: string, time: Option<int>, request: string, tail: string): Option<ParsedLine> {
    var status := Word(tail);
    var body := Word(status.after);
    var bytes := Word(body.after);
    var referer := Word(bytes.after);
    match ParseUpTo(status.before, U16_MAX)
    case None => None
    case Some(n) =>
      if ParseUpTo(body.before, U64_MAX).None? || ParseUpTo(bytes.before, U64_MAX).None? || referer.before == "" then None
      else
        Some(RequestLine(ip, time, request, n).(referer := Some(referer.before), userAgent := Trim(referer.after)))
  }

  /** NPMplus's format, in either of its versions: the address is counted back from the request. */
  function ParseNpmplus(r: Readers, line: string): Option<ParsedLine> {
    match SplitOnce(line, '"')
    case None => None
    case Some(h) =>
      if h.before == "" || h.before[0] != '[' then None
      else
        match SplitOnce(h.before[1..], ']')
        case None => None
        case Some(stamped) =>
          var words := Fields(stamped.after);
          var n := |words|;
          if n < 2 || !r.seconds(words[n - 1]) || r.ip(words[n - 2]).None? then None
          else
            var host := JoinWith(words[..n - 2], " ");
            match ParseNpmplusRest(r.ip(words[n - 2]).value, r.time(stamped.before), h.after)
            case None => None
            case Some(parsed) => Some(parsed.(host := if host == "" then None else Some(host), trailing := []))
  }

  function ParseNpmplusRest(ip: string, time: Option<int>, rest: string): Option<ParsedLine> {
    match SplitOnce(rest, '"')
    case None => None
    case Some(h) =>
      if '"' in h.after then ParseFromRequest(ip, time, rest) else ParseUnquotedTail(ip, time, h.before, h.after)
  }

  /** The format of a line is told by its first character that is not a space. */
  function ParseLine(r: Readers, json: string -> Option<ParsedLine>, line: string): Option<ParsedLine> {
    var trimmed := TrimStart(line);
    if StartsWith(trimmed, "{") then json(trimmed)
    else if StartsWith(trimmed, "[") then ParseNpmplus(r, trimmed)
    else ParseCombined(r, line)
  }

  predicate Spaces(indent: string) {
    forall k | 0 <= k < |indent| :: IsSpace(indent[k])
  }

  lemma {:induction false} TrimSpaces(indent: string, line: string)
    requires Spaces(indent) && line != "" && !IsSpace(line[0])
    ensures TrimStart(indent + line) == line
  {
    hide IsSpace;
    if indent != "" {
      assert (indent + line)[1..] == indent[1..] + line;
      TrimSpaces(indent[1..], line);
    } else {
      assert indent + line == line;
    }
  }

  /** The first character after the spaces tells which reader a line is given to. */
  lemma FormatIsTold(r: Readers, json: string -> Option<ParsedLine>, indent: string, line: string)
    requires Spaces(indent) && line != "" && !IsSpace(line[0]) && line[0] != '{'
    ensures ParseLine(r, json, indent + line)
         == if line[0] == '[' then ParseNpmplus(r, line) else ParseCombined(r, indent + line)
  {
    hide ParseNpmplus, ParseCombined;
    TrimSpaces(indent, line);
  }

  // ---- splitting what was joined ----

  lemma {:induction false} RSplitOnceAt(a: string, c: char, b: string)
    requires c !in b
    ensures RSplitOnce(a + [c] + b, c) == Some(Halves(a, b))
  {
    var s := a + [c] + b;
    if b == "" {
      assert s[..|s| - 1] == a;
    } else {
      var front := b[..|b| - 1];
      assert s[..|s| - 1] == a + [c] + front;
      RSplitOnceAt(a, c, front);
      assert front + [b[|b| - 1]] == b;
    }
  }

  lemma {:induction false} SplitAt(a: string, c: char, b: string)
    requires c !in a
    ensures Split(a + [c] + b, c) == [a] + Split(b, c)
  {
    var s := a + [c] + b;
    if a == "" {
      assert s[1..] == b;
    } else {
      assert s[1..] == a[1..] + [c] + b;
      SplitAt(a[1..], c, b);
      assert [a[0]] + a[1..] == a;
      assert ([a[1..]] + Split(b, c))[1..] == Split(b, c);
    }
  }

  lemma {:induction false} SplitWhole(s: string, c: char)
    requires c !in s
    ensures Split(s, c) == [s]
  {
    if s != "" {
      SplitWhole(s[1..], c);
      assert [s[0]] + s[1..] == s;
    }
  }

  /** A word in front of a space, or at the end, is the first field. */
  lemma FirstField(word: string, rest: string)
    requires IsWord(word) && (rest == "" || IsSpace(rest[0]))
    ensures Fields(word + rest) == [word] + Fields(rest)
  {
    var s := word + rest;
    assert s[0] == word[0];
    assert TrimStart(s) == s;
    SpaceAfter(word, rest);
    assert s[..|word|] == word && s[|word|..] == rest;
  }

  lemma FieldsSkipSpace(c: char, rest: string)
    requires IsSpace(c)
    ensures Fields([c] + rest) == Fields(rest)
  {
    assert ([c] + rest)[1..] == rest;
    assert TrimStart([c] + rest) == TrimStart(rest);
  }

  lemma NoFields()
    ensures Fields("") == []
  {
  }

  /** Fields on both sides of a space. */
  lemma {:induction false} FieldsConcat(a: string, b: string)
    ensures Fields(a + " " + b) == Fields(a) + Fields(b)
    decreases |a|
  {
    hide Fields, TrimStart, WordEnd;
    var s := a + " " + b;
    if a == "" {
      NoFields();
      assert s == [' '] + b;
      FieldsSkipSpace(' ', b);
    } else if IsSpace(a[0]) {
      assert s == [a[0]] + (a[1..] + " " + b) && a == [a[0]] + a[1..];
      FieldsSkipSpace(a[0], a[1..] + " " + b);
      FieldsSkipSpace(a[0], a[1..]);
      FieldsConcat(a[1..], b);
    } else {
      var n := WordEnd(a);
      var word, rest := a[..n], a[n..];
      SpaceIsFirst(a);
      FirstField(word, rest);
      assert a == word + rest && s == word + (rest + " " + b);
      FirstField(word, rest + " " + b);
      FieldsConcat(rest, b);
      assert [word] + (Fields(rest) + Fields(b)) == ([word] + Fields(rest)) + Fields(b);
    }
  }

  lemma {:induction false} SpaceIsFirst(s: string)
    requires s != "" && !IsSpace(s[0])
    ensures IsWord(s[..WordEnd(s)])
    ensures s[WordEnd(s)..] == "" || IsSpace(s[WordEnd(s)..][0])
  {
    if |s| > 1 && !IsSpace(s[1]) {
      SpaceIsFirst(s[1..]);
      assert s[..WordEnd(s)][1..] == s[1..][..WordEnd(s[1..])];
      assert s[WordEnd(s)..] == s[1..][WordEnd(s[1..])..];
    } else if |s| > 1 {
      assert WordEnd(s[1..]) == 0;
    } else {
      assert s[1..] == "";
    }
  }

  // ---- what NGINX writes ----

  predicate NoQuote(s: string) {
    '"' !in s
  }

  /** A status as NGINX prints it. */
  lemma PrintedNumber(n: nat, max: nat)
    requires n <= max
    ensures IsWord(PrintNat(n)) && NoQuote(PrintNat(n)) && ParseUpTo(PrintNat(n), max) == Some(n)
  {
    ParsePrinted(n);
    var s := PrintNat(n);
    assert forall k | 0 <= k < |s| :: s[k] in s;
    assert s[0] in s;
  }

  /** What follows the request: two numbers, then quoted fields. */
  function Tail(status: nat, bytes: string, fields: string): string {
    " " + PrintNat(status) + " " + bytes + " " + fields
  }

  /** Quoted fields after a space each, and whatever is after the last. */
  function QuotedFields(fields: seq<string>, rest: string): string {
    if fields == [] then rest
    else "\"" + fields[0] + "\"" + (if |fields| == 1 then rest else " " + QuotedFields(fields[1..], rest))
  }

  ghost predicate NoQuotes(fields: seq<string>) {
    forall k | 0 <= k < |fields| :: NoQuote(fields[k])
  }

  /** Fields as splitting on quotes finds them: each after what is in front of its quote. */
  function Interleaved(front: string, fields: seq<string>, rest: string): seq<string>
    decreases |fields|
  {
    if fields == [] then [front + rest]
    else [front, fields[0]] + (if |fields| == 1 then [rest] else Interleaved(" ", fields[1..], rest))
  }

  lemma {:induction false} QuotedSplit(front: string, fields: seq<string>, rest: string)
    requires NoQuote(front) && NoQuotes(fields) && NoQuote(rest)
    ensures Split(front + QuotedFields(fields, rest), '"') == Interleaved(front, fields, rest)
    decreases |fields|
  {
    hide Split;
    if fields == [] {
      SplitWhole(front + rest, '"');
    } else {
      var f := fields[0];
      assert NoQuote(f);
      var more := if |fields| == 1 then rest else " " + QuotedFields(fields[1..], rest);
      var s := front + QuotedFields(fields, rest);
      assert s == front + ['"'] + (f + ['"'] + more);
      SplitAt(front, '"', f + ['"'] + more);
      SplitAt(f, '"', more);
      if |fields| == 1 {
        SplitWhole(rest, '"');
      } else {
        QuotedSplit(" ", fields[1..], rest);
      }
      assert [front] + ([f] + Split(more, '"')) == [front, f] + Split(more, '"');
    }
  }

  /** The status in front of the quoted fields. */
  lemma StatusReads(status: nat, bytes: string)
    requires status <= U16_MAX
    ensures var fields := Fields(" " + PrintNat(status) + " " + bytes + " ");
            fields != [] && ParseUpTo(fields[0], U16_MAX) == Some(status)
  {
    hide PrintNat, ParseUpTo, TrimStart;
    PrintedNumber(status, U16_MAX);
    var n := PrintNat(status);
    var rest := " " + bytes + " ";
    assert " " + n + " " + bytes + " " == [' '] + (n + rest);
    FieldsSkipSpace(' ', n + rest);
    FirstField(n, rest);
  }

  /** What is read from the request on, when fields after it are quoted. */
  function Quoted(ip: string, time: Option<int>, request: string, status: nat, referer: string, agent: string,
                  more: seq<string>): ParsedLine {
    RequestLine(ip, time, request, status).(referer := Some(referer), userAgent := agent, trailing := more)
  }

  lemma {:induction false} TrailingIs(front: string, fields: seq<string>, rest: string, before: seq<string>)
    requires fields != []
    ensures Trailing(before + Interleaved(front, fields, rest), |before| + 1) == fields
    decreases |fields|
  {
    var quoted := before + Interleaved(front, fields, rest);
    assert quoted[|before| + 1] == fields[0];
    if |fields| > 1 {
      var next := before + [front, fields[0]];
      assert quoted == next + Interleaved(" ", fields[1..], rest);
      TrailingIs(" ", fields[1..], rest, next);
    }
  }

  /** From the request on, every quoted field is read as it was written. */
  lemma RequestReads(ip: string, time: Option<int>, request: string, status: nat, bytes: string, referer: string,
                     agent: string, more: seq<string>, rest: string)
    requires status <= U16_MAX && NoQuote(request) && NoQuote(bytes) && NoQuote(referer) && NoQuote(agent)
    requires NoQuotes(more) && NoQuote(rest)
    ensures ParseFromRequest(ip, time, request + "\"" + Tail(status, bytes, QuotedFields([referer, agent] + more, rest)))
         == Some(Quoted(ip, time, request, status, referer, agent, more))
  {
    hide Split, SplitOnce, Fields, ParseUpTo, PrintNat, Interleaved, QuotedFields;
    var fields := [referer, agent] + more;
    var front := " " + PrintNat(status) + " " + bytes + " ";
    var tail := Tail(status, bytes, QuotedFields(fields, rest));
    assert tail == front + QuotedFields(fields, rest);
    SplitOnceAt(request, '"', tail);
    PrintedNumber(status, U16_MAX);
    QuotedSplit(front, fields, rest);
    StatusReads(status, bytes);
    var quoted := Interleaved(front, fields, rest);
    SplitFields(front, referer, agent, more, rest);
  }

  lemma SplitFields(front: string, referer: string, agent: string, more: seq<string>, rest: string)
    ensures var quoted := Interleaved(front, [referer, agent] + more, rest);
            |quoted| > 4 && quoted[0] == front && quoted[1] == referer && quoted[3] == agent && Trailing(quoted, 5) == more
  {
    var fields := [referer, agent] + more;
    assert fields[1..] == [agent] + more && fields[1..][1..] == more;
    var quoted := Interleaved(front, fields, rest);
    var second := [agent] + more;
    assert Interleaved(" ", second, rest)
        == [" ", agent] + (if more == [] then [rest] else Interleaved(" ", more, rest)) by { assert second[1..] == more; }
    assert quoted == [front, referer] + Interleaved(" ", second, rest);
    if more == [] {
      assert quoted == [front, referer] + ([" ", agent] + [rest]);
    } else {
      var before := [front, referer, " ", agent];
      assert quoted == before + Interleaved(" ", more, rest);
      TrailingIs(" ", more, rest, before);
    }
  }

  /** A word joined to a word. */
  lemma WordWithin(a: string, b: string)
    requires IsWord(a) && forall k | 0 <= k < |b| :: !IsSpace(b[k])
    ensures IsWord(a + b)
  {
    hide IsSpace;
  }

  lemma TwoFields(verb: string, target: string, rest: string)
    requires IsWord(verb) && IsWord(target) && (rest == "" || IsSpace(rest[0]))
    ensures Fields(verb + " " + target + rest) == [verb, target] + Fields(rest)
  {
    hide Fields, IsSpace;
    SpaceOrNot();
    assert verb + " " + target + rest == verb + ([' '] + (target + rest));
    FirstField(verb, [' '] + (target + rest));
    FieldsSkipSpace(' ', target + rest);
    FirstField(target, rest);
    assert [verb] + ([target] + Fields(rest)) == [verb, target] + Fields(rest);
  }

  /** A request is its verb, the path it asks for without its query, and whether it had one; and it
      is kept as it was written. */
  lemma RequestLineReads(ip: string, time: Option<int>, verb: string, path: string, query: string, rest: string, status: nat)
    requires IsWord(verb) && IsWord(path) && '?' !in path && (forall k | 0 <= k < |query| :: !IsSpace(query[k]))
    requires rest == "" || IsSpace(rest[0])
    ensures var plain, asked := verb + " " + path + rest, verb + " " + (path + "?" + query) + rest;
            && RequestLine(ip, time, plain, status) == ParsedLine(ip, status, path, false, verb, plain, None, "", time, None, [])
            && RequestLine(ip, time, asked, status) == ParsedLine(ip, status, path, true, verb, asked, None, "", time, None, [])
  {
    hide Fields, IsSpace, Before;
    TwoFields(verb, path, rest);
    QuestionIsNoSpace();
    assert forall k | 0 <= k < |"?" + query| :: !IsSpace(("?" + query)[k]);
    WordWithin(path, "?" + query);
    assert path + ("?" + query) == path + "?" + query;
    TwoFields(verb, path + "?" + query, rest);
    BeforeIs(path, '?', query);
    assert path + "?" + query == path + ['?'] + query;
  }

  lemma QuestionIsNoSpace()
    ensures !IsSpace('?')
  {
  }

  /** What is no request: nothing was asked for. */
  lemma NoTargetReads(ip: string, time: Option<int>, word: string, status: nat)
    requires word == "" || IsWord(word)
    ensures RequestLine(ip, time, word, status) == ParsedLine(ip, status, "", false, word, word, None, "", time, None, [])
  {
    hide Fields;
    NoFields();
    if word != "" {
      FirstField(word, "");
      assert word + "" == word && [word] + [] == [word];
    }
  }

  // ---- the combined format ----

  /** A line of the combined format. */
  function CombinedLine(ip: string, user: string, stamp: string, request: string, status: nat, bytes: string,
                        referer: string, agent: string): string {
    ip + " - " + user + " [" + stamp + "] " + "\"" + request + "\"" + Tail(status, bytes, QuotedFields([referer, agent], ""))
  }

  lemma {:induction false} FieldsSkipSpaces(indent: string, rest: string)
    requires Spaces(indent)
    ensures Fields(indent + rest) == Fields(rest)
  {
    hide Fields, IsSpace;
    if indent == "" {
      assert indent + rest == rest;
    } else {
      assert indent + rest == [indent[0]] + (indent[1..] + rest);
      FieldsSkipSpace(indent[0], indent[1..] + rest);
      FieldsSkipSpaces(indent[1..], rest);
    }
  }

  lemma SpaceOrNot()
    ensures IsSpace(' ') && !IsSpace('[')
  {
  }

  lemma SpacesAreNoQuotes(indent: string)
    requires Spaces(indent)
    ensures NoQuote(indent)
  {
  }

  /** Every field NGINX wrote on a line is read back, whatever the client put in its own: a user
      name with brackets in it does not move the time, nor one with spaces the address. The line is
      known for what it is, as no address starts with a bracket. */
  lemma CombinedReads(r: Readers, json: string -> Option<ParsedLine>, indent: string, ip: string, user: string,
                      stamp: string, request: string, status: nat, bytes: string, referer: string, agent: string)
    requires Spaces(indent)
    requires IsWord(ip) && NoQuote(ip) && ip[0] != '{' && ip[0] != '[' && r.ip(ip).Some? && status <= U16_MAX
    requires NoQuote(user) && NoQuote(request) && NoQuote(bytes) && NoQuote(referer) && NoQuote(agent)
    requires NoQuote(stamp) && '[' !in stamp && ']' !in stamp
    ensures ParseLine(r, json, indent + CombinedLine(ip, user, stamp, request, status, bytes, referer, agent))
         == Some(Quoted(r.ip(ip).value, r.time(stamp), request, status, referer, agent, []))
  {
    hide SplitOnce, Fields, ParseFromRequest, Quoted, Tail, QuotedFields, RSplitOnce, ParseLine, ParseNpmplus, Spaces, IsSpace;
    var line := CombinedLine(ip, user, stamp, request, status, bytes, referer, agent);
    assert line[0] == ip[0];
    FormatIsTold(r, json, indent, line);
    SpacesAreNoQuotes(indent);
    SpaceOrNot();
    var words := " - " + user + " [" + stamp + "] ";
    var prefix := indent + ip + words;
    var rest := request + "\"" + Tail(status, bytes, QuotedFields([referer, agent], ""));
    assert [referer, agent] + [] == [referer, agent];
    assert indent + line == prefix + ['"'] + rest;
    SplitOnceAt(prefix, '"', rest);
    FieldsSkipSpaces(indent, ip + words);
    FirstField(ip, words);
    assert prefix == indent + (ip + words);
    StampReads(r, indent + ip + " - " + user + " ", stamp);
    assert prefix == indent + ip + " - " + user + " " + "[" + stamp + "] ";
    RequestReads(r.ip(ip).value, r.time(stamp), request, status, bytes, referer, agent, [], "");
  }

  lemma StampReads(r: Readers, before: string, stamp: string)
    requires '[' !in stamp && ']' !in stamp
    ensures BracketedTime(r, before + "[" + stamp + "] ") == r.time(stamp)
  {
    hide SplitOnce, RSplitOnce;
    var after := stamp + "] ";
    assert before + "[" + stamp + "] " == before + ['['] + after;
    RSplitOnceAt(before, '[', after);
    SplitOnceAt(stamp, ']', " ");
    assert after == stamp + [']'] + " ";
  }

  // ---- NPMplus's formats ----

  /** What is in front of the request in either of them. */
  function NpmplusPrefix(stamp: string, host: string, ip: string, seconds: string): string {
    "[" + stamp + "] " + host + " " + ip + " " + seconds + " "
  }

  lemma NpmplusWords(host: string, ip: string, seconds: string)
    requires IsWord(ip) && IsWord(seconds)
    ensures Fields(HostPart(host, ip, seconds)) == Fields(host) + [ip, seconds]
  {
    hide Fields;
    assert " " + host + " " + ip + " " + seconds + " " == [' '] + (host + " " + (ip + " " + (seconds + " ")));
    FieldsSkipSpace(' ', host + " " + (ip + " " + (seconds + " ")));
    FieldsConcat(host, ip + " " + (seconds + " "));
    FieldsConcat(ip, seconds + " ");
    FirstField(ip, "");
    FirstField(seconds, " ");
    assert ip + "" == ip && " " == [' '] + "";
    FieldsSkipSpace(' ', "");
    NoFields();
    assert [ip] + ([seconds] + []) == [ip, seconds];
  }

  function HostPart(host: string, ip: string, seconds: string): string {
    " " + host + " " + ip + " " + seconds + " "
  }

  lemma PrefixShape(stamp: string, host: string, ip: string, seconds: string)
    ensures var prefix := NpmplusPrefix(stamp, host, ip, seconds);
            prefix != "" && prefix[0] == '[' && prefix[1..] == stamp + [']'] + HostPart(host, ip, seconds)
    ensures NoQuote(stamp) && NoQuote(host) && NoQuote(ip) && NoQuote(seconds)
        ==> NoQuote(NpmplusPrefix(stamp, host, ip, seconds))
  {
    assert NpmplusPrefix(stamp, host, ip, seconds) == "[" + (stamp + "]" + HostPart(host, ip, seconds));
  }

  /** The address and the time are read back whatever the client's `Host` holds: spaces,
      addresses, brackets. */
  lemma NpmplusPrefixReads(r: Readers, stamp: string, host: string, ip: string, seconds: string, rest: string)
    requires IsWord(ip) && IsWord(seconds) && NoQuote(ip) && NoQuote(seconds) && r.ip(ip).Some? && r.seconds(seconds)
    requires NoQuote(stamp) && ']' !in stamp && NoQuote(host)
    ensures var name := JoinWith(Fields(host), " ");
            ParseNpmplus(r, NpmplusPrefix(stamp, host, ip, seconds) + "\"" + rest)
            == match ParseNpmplusRest(r.ip(ip).value, r.time(stamp), rest)
               case None => None
               case Some(parsed) => Some(parsed.(host := if name == "" then None else Some(name), trailing := []))
  {
    hide SplitOnce, Fields, ParseNpmplusRest, JoinWith, NpmplusPrefix, IsSpace;
    var prefix := NpmplusPrefix(stamp, host, ip, seconds);
    var after := HostPart(host, ip, seconds);
    PrefixShape(stamp, host, ip, seconds);
    SplitOnceAt(prefix, '"', rest);
    SplitOnceAt(stamp, ']', after);
    NpmplusWords(host, ip, seconds);
    var words := Fields(host) + [ip, seconds];
    assert words[..|words| - 2] == Fields(host);
  }

  /** A line of the version that quotes its headers: address, time, status, request, referer and user agent
      are read back. */
  lemma QuotedNpmplusReads(r: Readers, json: string -> Option<ParsedLine>, indent: string, stamp: string, host: string,
                           ip: string, seconds: string, request: string, status: nat, bytes: string, referer: string,
                           agent: string, more: seq<string>, rest: string)
    requires Spaces(indent)
    requires IsWord(ip) && IsWord(seconds) && NoQuote(ip) && NoQuote(seconds) && r.ip(ip).Some? && r.seconds(seconds)
    requires NoQuote(stamp) && ']' !in stamp && NoQuote(host) && status <= U16_MAX
    requires NoQuote(request) && NoQuote(bytes) && NoQuote(referer) && NoQuote(agent) && NoQuotes(more) && NoQuote(rest)
    ensures var line := NpmplusPrefix(stamp, host, ip, seconds) + "\"" + request + "\""
                        + Tail(status, bytes, QuotedFields([referer, agent] + more, rest));
            var name := JoinWith(Fields(host), " ");
            ParseLine(r, json, indent + line)
            == Some(Quoted(r.ip(ip).value, r.time(stamp), request, status, referer, agent, []).(
                      host := if name == "" then None else Some(name)))
  {
    hide SplitOnce, Fields, ParseFromRequest, QuotedFields, JoinWith, RequestLine, ParseNpmplus, ParseLine, Spaces, IsSpace, NpmplusPrefix, PrintNat;
    var tail := Tail(status, bytes, QuotedFields([referer, agent] + more, rest));
    var after := request + "\"" + tail;
    var prefix := NpmplusPrefix(stamp, host, ip, seconds);
    assert prefix + "\"" + request + "\"" + tail == prefix + "\"" + after;
    PrefixShape(stamp, host, ip, seconds);
    SpaceOrNot();
    FormatIsTold(r, json, indent, prefix + "\"" + after);
    NpmplusPrefixReads(r, stamp, host, ip, seconds, after);
    assert after == request + ['"'] + tail;
    SplitOnceAt(request, '"', tail);
    QuoteInTail(status, bytes, referer, [agent] + more, rest);
    assert [referer] + ([agent] + more) == [referer, agent] + more;
    RequestReads(r.ip(ip).value, r.time(stamp), request, status, bytes, referer, agent, more, rest);
  }

  lemma QuoteInTail(status: nat, bytes: string, first: string, more: seq<string>, rest: string)
    ensures '"' in Tail(status, bytes, QuotedFields([first] + more, rest))
  {
    hide PrintNat;
    var fields := QuotedFields([first] + more, rest);
    assert fields[0] == '"';
    assert '"' in fields;
  }

  // ---- the unquoted tail ----

  /** The released version's tail. */
  function UnquotedTail(status: nat, body: nat, bytes: nat, referer: string, agent: string): string {
    " " + PrintNat(status) + " " + PrintNat(body) + " " + PrintNat(bytes) + " " + referer + " " + agent
  }

  /** A word up to a space. */
  lemma WordIs(word: string, rest: string)
    requires IsWord(word)
    ensures Word(word + " " + rest) == Halves(word, rest) && Word(" " + word + " " + rest) == Halves(word, rest)
  {
    var s := word + " " + rest;
    assert s[0] == word[0] && TrimStart(s) == s;
    assert (" " + word + " " + rest)[1..] == s;
    assert TrimStart(" " + word + " " + rest) == TrimStart(s);
    forall k | 0 <= k < |word|
      ensures word[k] != ' '
    {
      assert !IsSpace(word[k]);
    }
    assert s == word + [' '] + rest;
    SplitOnceAt(word, ' ', rest);
  }

  /** In the released format a referer of one word and a user agent with no space at its ends are
      read back as they were sent. */
  lemma UnquotedTailReads(ip: string, time: Option<int>, request: string, status: nat, body: nat, bytes: nat,
                          referer: string, agent: string)
    requires status <= U16_MAX && body <= U64_MAX && bytes <= U64_MAX && IsWord(referer)
    ensures ParseUnquotedTail(ip, time, request, UnquotedTail(status, body, bytes, referer, agent))
         == Some(RequestLine(ip, time, request, status).(referer := Some(referer), userAgent := Trim(agent)))
  {
    hide Word, ParseUpTo, PrintNat, Trim, RequestLine, TrimStart;
    PrintedNumber(status, U16_MAX);
    PrintedNumber(body, U64_MAX);
    PrintedNumber(bytes, U64_MAX);
    var fourth := referer + " " + agent;
    var third := PrintNat(bytes) + " " + fourth;
    var second := PrintNat(body) + " " + third;
    assert UnquotedTail(status, body, bytes, referer, agent) == " " + PrintNat(status) + " " + second;
    WordIs(PrintNat(status), second);
    WordIs(PrintNat(body), third);
    WordIs(PrintNat(bytes), fourth);
    WordIs(referer, agent);
  }

  /** A line of the released format: everything NGINX wrote is read back, and so are the client's
      referer of one word and trimmed user agent. */
  lemma UnquotedNpmplusReads(r: Readers, json: string -> Option<ParsedLine>, indent: string, stamp: string,
                             host: string, ip: string, seconds: string, request: string, status: nat, body: nat,
                             bytes: nat, referer: string, agent: string)
    requires Spaces(indent)
    requires IsWord(ip) && IsWord(seconds) && NoQuote(ip) && NoQuote(seconds) && r.ip(ip).Some? && r.seconds(seconds)
    requires NoQuote(stamp) && ']' !in stamp && NoQuote(host)
    requires status <= U16_MAX && body <= U64_MAX && bytes <= U64_MAX
    requires NoQuote(request) && IsWord(referer) && NoQuote(referer) && NoQuote(agent)
    ensures var line := NpmplusPrefix(stamp, host, ip, seconds) + "\"" + request + "\""
                        + UnquotedTail(status, body, bytes, referer, agent);
            var name := JoinWith(Fields(host), " ");
            ParseLine(r, json, indent + line)
            == Some(RequestLine(r.ip(ip).value, r.time(stamp), request, status).(
                      referer := Some(referer), userAgent := Trim(agent),
                      host := if name == "" then None else Some(name)))
  {
    hide SplitOnce, Fields, ParseUnquotedTail, JoinWith, RequestLine, ParseNpmplus, ParseLine, Spaces, IsSpace, NpmplusPrefix, PrintNat, Trim;
    var tail := UnquotedTail(status, body, bytes, referer, agent);
    var after := request + "\"" + tail;
    var prefix := NpmplusPrefix(stamp, host, ip, seconds);
    assert prefix + "\"" + request + "\"" + tail == prefix + "\"" + after;
    PrefixShape(stamp, host, ip, seconds);
    SpaceOrNot();
    FormatIsTold(r, json, indent, prefix + "\"" + after);
    NpmplusPrefixReads(r, stamp, host, ip, seconds, after);
    assert after == request + ['"'] + tail;
    SplitOnceAt(request, '"', tail);
    PrintedNumber(status, U16_MAX);
    PrintedNumber(body, U64_MAX);
    PrintedNumber(bytes, U64_MAX);
    assert '"' !in tail;
    UnquotedTailReads(r.ip(ip).value, r.time(stamp), request, status, body, bytes, referer, agent);
    NoTrailing(r.ip(ip).value, r.time(stamp), request, status);
  }

  lemma NoTrailing(ip: string, time: Option<int>, request: string, status: nat)
    ensures RequestLine(ip, time, request, status).trailing == []
  {
    hide Fields, Before;
  }

  // ---- what is no line of these formats ----

  /** A line with no quote in it is none, nor is one whose number is too large to be a status. */
  lemma NoQuoteIsNoLine(r: Readers, json: string -> Option<ParsedLine>, line: string)
    requires NoQuote(line) && (TrimStart(line) == "" || TrimStart(line)[0] != '{')
    ensures ParseLine(r, json, line) == None
  {
    hide TrimStart;
    SplitOnceIs(line, '"');
    var front := TrimStartIs(line);
    assert forall c | c in TrimStart(line) :: c in line;
    SplitOnceIs(TrimStart(line), '"');
  }

  lemma TooLargeIsNoNumber(n: nat, max: nat)
    ensures ParseUpTo(PrintNat(n), max) == if n <= max then Some(n) else None
  {
    hide PrintNat;
    ParsePrinted(n);
    assert PrintNat(n)[0] in PrintNat(n);
  }

  /** A combined line that does not start with an address is none. */
  lemma NoAddressIsNoLine(r: Readers, json: string -> Option<ParsedLine>, word: string, rest: string)
    requires IsWord(word) && NoQuote(word) && word[0] != '{' && word[0] != '[' && r.ip(word).None?
    requires rest == "" || IsSpace(rest[0])
    ensures ParseLine(r, json, word + rest) == None
  {
    hide Fields, SplitOnce, ParseFromRequest, BracketedTime, IsSpace;
    var line := word + rest;
    assert line[0] == word[0] && !IsSpace(line[0]);
    assert Spaces("") && "" + line == line;
    FormatIsTold(r, json, "", line);
    SplitOnceIs(line, '"');
    if SplitOnce(line, '"').Some? {
      var h := SplitOnce(line, '"').value;
      WordStarts(word, rest, h.before, h.after);
    }
  }

  lemma WordStarts(word: string, rest: string, before: string, after: string)
    requires IsWord(word) && NoQuote(word) && (rest == "" || IsSpace(rest[0]))
    requires word + rest == before + ['"'] + after && '"' !in before
    ensures Fields(before) != [] && Fields(before)[0] == word
  {
    hide Fields, IsSpace;
    var line := word + rest;
    assert line[|before|] == '"';
    assert forall k | 0 <= k < |word| :: line[k] == word[k] && word[k] in word;
    assert |word| <= |before|;
    var more := before[|word|..];
    assert before == line[..|before|] && word == line[..|word|];
    assert before[..|word|] == line[..|word|];
    assert before == before[..|word|] + more;
    assert before == word + more;
    if more != "" { assert more[0] == line[|word|] == rest[0]; }
    FirstField(word, more);
  }

  /** Words with one blank between them, and nothing around. */
  predicate SingleSpaced(text: string) {
    && (text != "" ==> !IsSpace(text[0]) && !IsSpace(text[|text| - 1]))
    && forall k | 0 < k < |text| && IsSpace(text[k]) :: text[k] == ' ' && !IsSpace(text[k - 1])
  }

  /** NPMplus's host is the words of it, with one blank between: so it is read as it was. */
  lemma {:induction false} HostReads(host: string)
    requires SingleSpaced(host)
    ensures JoinWith(Fields(host), " ") == host
    decreases |host|
  {
    NoFields();
    if host != "" {
      var n := WordEnd(host);
      var word, rest := host[..n], host[n..];
      assert host == word + rest;
      HostStarts(host);
      FirstField(word, rest);
      if rest == "" {
        assert [word] + [] == [word];
      } else {
        HostReads(rest[1..]);
        assert rest == [' '] + rest[1..];
        BlankFields(rest[1..]);
        assert Fields(host) == [word] + Fields(rest[1..]) && Fields(rest[1..]) != [];
        assert Fields(host)[1..] == Fields(rest[1..]);
        assert host == word + " " + rest[1..];
      }
    }
  }

  lemma HostStarts(host: string)
    requires SingleSpaced(host) && host != ""
    ensures var n := WordEnd(host); IsWord(host[..n])
    ensures var rest := host[WordEnd(host)..]; rest != "" ==> rest[0] == ' ' && rest[1..] != "" && SingleSpaced(rest[1..])
  {
    var n := WordEnd(host);
    var rest := host[n..];
    if rest != "" {
      var more := rest[1..];
      assert rest[|rest| - 1] == host[|host| - 1];
      assert more != "";
      assert more[0] == host[n + 1] && more[|more| - 1] == host[|host| - 1];
      forall k | 0 < k < |more| && IsSpace(more[k])
        ensures more[k] == ' ' && !IsSpace(more[k - 1])
      {
        assert more[k] == host[n + 1 + k] && more[k - 1] == host[n + k];
      }
    }
  }

  lemma BlankFields(text: string)
    requires text != "" && !IsSpace(text[0])
    ensures Fields([' '] + text) == Fields(text) && Fields(text) != []
  {
    var s := [' '] + text;
    assert s[1..] == text;
    assert TrimStart(s) == TrimStart(text) == text;
  }
}

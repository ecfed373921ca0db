/**
 * The HTTP API's dispatch: exact routes, the two patterns with one capture group, and the two calls that
 * the HTTP daemon makes for one GET. A captured text is taken from the start of the group to the end of the URL.
 */
module Routes {
  import opened Text
  import opened Decimal

  const HOME_PAGE_ROUTE := "/"
  const HEALTH_CHECK_ROUTE := "/health-check"
  const IP_ADDRESSES_ROUTE := "/ip-addresses"
  const IP_ADDRESSES_IPSET_ROUTE := "/ip-addresses/ipset"
  const NUMBERS_ROUTE := "/numbers"
  const COUNTRIES_ROUTE := "/countries"
  const COUNTRY_ROUTE := "/countries/:country"
  const COUNTRY_CITY_ROUTE := "/countries/:country/:city"
  const USER_AGENTS_ROUTE := "/user-agents"
  const USER_AGENT_ROUTE := "/user-agents/:user_agent"
  const SIP_METHODS_ROUTE := "/sip-methods"
  const SIP_METHOD_ROUTE := "/sip-methods/:sip_method"

  const NEWLINE := '\n'

  // ----- the two patterns -----

  /** What the one capture group of a pattern matches. */
  datatype Group = Line | Number

  /** Literal text followed by a group. */
  datatype Pattern = Pattern(literal: string, group: Group)

  /** "/ip-addresses/(.+)" */
  const IP_ADDRESS_ROUTE := Pattern("/ip-addresses/", Line)

  /** "/numbers/(\+?[0-9]+$)" */
  const NUMBER_ROUTE := Pattern("/numbers/", Number)

  predicate LiteralAt(p: Pattern, url: string, i: nat) {
    i + |p.literal| <= |url| && url[i..i + |p.literal|] == p.literal
  }

  /** `.+`: some bytes, none of them a newline. */
  predicate IsLine(url: string, s: nat, e: nat) {
    s < e <= |url| && forall k :: s <= k < e ==> url[k] != NEWLINE
  }

  /** `\+?[0-9]+`: an optional plus and some digits. */
  predicate IsNumber(url: string, s: nat, e: nat) {
    && s < e <= |url| && (url[s] == '+' || IsDigit(url[s])) && (url[s] == '+' ==> s + 1 < e)
    && forall k :: s < k < e ==> IsDigit(url[k])
  }

  /** `$`: at the end, or in front of a last newline. */
  predicate AtEnd(url: string, e: nat) {
    e == |url| || (e + 1 == |url| && url[e] == NEWLINE)
  }

  /** The group may span url[s..e]. */
  predicate Captures(p: Pattern, url: string, s: nat, e: nat) {
    if p.group.Line? then IsLine(url, s, e) else IsNumber(url, s, e) && AtEnd(url, e)
  }

  predicate MatchAt(p: Pattern, url: string, i: nat, e: nat) {
    LiteralAt(p, url, i) && Captures(p, url, i + |p.literal|, e)
  }

  /** The match that a search reports: leftmost, and there the longest. */
  ghost predicate IsMatch(p: Pattern, url: string, i: nat, e: nat) {
    && MatchAt(p, url, i, e)
    && (forall j: nat, f: nat :: MatchAt(p, url, j, f) ==> i <= j)
    && (forall f: nat :: MatchAt(p, url, i, f) ==> f <= e)
  }

  /** The end of the run of bytes that satisfy `keep`. */
  function RunEnd(url: string, s: nat, keep: char -> bool): (e: nat)
    requires s <= |url|
    ensures s <= e <= |url| && (e < |url| ==> !keep(url[e])) && forall k :: s <= k < e ==> keep(url[k])
    decreases |url| - s
  {
    if s < |url| && keep(url[s]) then RunEnd(url, s + 1, keep) else s
  }

  /** The end of the group that starts at s, if it matches there. */
  function GroupEnd(p: Pattern, url: string, s: nat): (e: Option<nat>)
    requires s <= |url|
    ensures e.Some? ==> s <= e.value <= |url|
  {
    if p.group.Line? then
      var e := RunEnd(url, s, c => c != NEWLINE);
      if s < e then Some(e) else None
    else
      var digits := if s < |url| && url[s] == '+' then s + 1 else s;
      var e := RunEnd(url, digits, c => IsDigit(c));
      if digits < e && AtEnd(url, e) then Some(e) else None
  }

  /** Where the whole match starts and the group ends. */
  datatype Span = Span(from: nat, end: nat)

  predicate FoundAt(p: Pattern, url: string, i: nat) {
    LiteralAt(p, url, i) && GroupEnd(p, url, i + |p.literal|).Some?
  }

  function Search(p: Pattern, url: string, from: nat): (m: Option<Span>)
    requires from <= |url|
    ensures m.Some? ==> from <= m.value.from && m.value.from + |p.literal| <= m.value.end <= |url|
    decreases |url| - from
  {
    if FoundAt(p, url, from) then
      Some(Span(from, GroupEnd(p, url, from + |p.literal|).value))
    else if from == |url| then None
    else Search(p, url, from + 1)
  }

  lemma GroupEndIsLongest(p: Pattern, url: string, s: nat)
    requires s <= |url|
    ensures GroupEnd(p, url, s).Some? ==> Captures(p, url, s, GroupEnd(p, url, s).value)
    ensures forall e: nat :: Captures(p, url, s, e) ==> GroupEnd(p, url, s).Some? && e <= GroupEnd(p, url, s).value
  {
    forall e: nat | Captures(p, url, s, e)
      ensures GroupEnd(p, url, s).Some? && e <= GroupEnd(p, url, s).value
    {
      if p.group.Line? {
        var r := RunEnd(url, s, c => c != NEWLINE);
        assert e <= r;
      } else {
        var digits := if s < |url| && url[s] == '+' then s + 1 else s;
        var r := RunEnd(url, digits, c => IsDigit(c));
        assert e == r;
      }
    }
  }

  lemma FoundAtExactly(p: Pattern, url: string, i: nat)
    ensures !FoundAt(p, url, i) ==> forall e: nat :: !MatchAt(p, url, i, e)
    ensures FoundAt(p, url, i) ==>
              var end := GroupEnd(p, url, i + |p.literal|).value;
              MatchAt(p, url, i, end) && forall e: nat :: MatchAt(p, url, i, e) ==> e <= end
  {
    if LiteralAt(p, url, i) {
      GroupEndIsLongest(p, url, i + |p.literal|);
    }
  }

  /** The search reports the leftmost match, or there is none. */
  lemma SearchIsLeftmost(p: Pattern, url: string)
    ensures Search(p, url, 0).Some? ==> IsMatch(p, url, Search(p, url, 0).value.from, Search(p, url, 0).value.end)
    ensures Search(p, url, 0).None? ==> forall i: nat, e: nat :: !MatchAt(p, url, i, e)
  {
    SearchFrom(p, url, 0);
  }

  ghost predicate NoneBefore(p: Pattern, url: string, from: nat, to: nat) {
    forall i: nat, e: nat :: from <= i < to ==> !MatchAt(p, url, i, e)
  }

  lemma NoneFromHere(p: Pattern, url: string, from: nat, to: nat)
    requires NoneBefore(p, url, from + 1, to) && forall e: nat :: !MatchAt(p, url, from, e)
    ensures NoneBefore(p, url, from, to)
  {
    forall i: nat, e: nat | from <= i < to
      ensures !MatchAt(p, url, i, e)
    {
      if i > from {
        assert from + 1 <= i < to;
      }
    }
  }

  lemma {:induction false} SearchFrom(p: Pattern, url: string, from: nat)
    requires from <= |url|
    ensures var m := Search(p, url, from);
            if m.None? then NoneBefore(p, url, from, |url| + 1)
            else NoneBefore(p, url, from, m.value.from) && MatchAt(p, url, m.value.from, m.value.end)
                 && (forall e: nat :: MatchAt(p, url, m.value.from, e) ==> e <= m.value.end)
    decreases |url| - from
  {
    FoundAtExactly(p, url, from);
    if !FoundAt(p, url, from) {
      if from < |url| {
        SearchFrom(p, url, from + 1);
        var m := Search(p, url, from + 1);
        NoneFromHere(p, url, from, if m.None? then |url| + 1 else m.value.from);
      }
    }
  }

  /** `regex_match`: the text from the start of the group to the end of the subject. */
  method RegexMatch(url: string, p: Pattern) returns (matched: Option<string>)
    ensures matched.None? <==> forall i: nat, e: nat :: !MatchAt(p, url, i, e)
    ensures matched.Some? ==>
              exists i: nat, e: nat :: IsMatch(p, url, i, e) && matched.value == url[i + |p.literal|..]
    ensures matched == Matched(p, url)
  {
    SearchIsLeftmost(p, url);
    var m := Search(p, url, 0);
    if m.None? {
      return None;
    }
    return Some(url[m.value.from + |p.literal|..]);
  }

  function Matched(p: Pattern, url: string): Option<string> {
    var m := Search(p, url, 0);
    if m.None? then None else Some(url[m.value.from + |p.literal|..])
  }

  /** The suffix is the captured group exactly if no newline follows the start of the group. */
  lemma SuffixIsGroupExactly(p: Pattern, url: string, i: nat, e: nat)
    requires IsMatch(p, url, i, e)
    ensures var s := i + |p.literal|;
            && (url[s..] == url[s..e] <==> IsLine(url, s, |url|))
            && (p.group.Number? ==> (IsLine(url, s, |url|) <==> url[|url| - 1] != NEWLINE))
  {
    var s := i + |p.literal|;
    if e < |url| {
      assert url[e] == NEWLINE by {
        if p.group.Line? && url[e] != NEWLINE {
          assert MatchAt(p, url, i, e + 1);
        }
      }
      assert |url[s..]| != |url[s..e]|;
    }
  }

  /** A number route with a newline behind it: the group ends in front of the newline, the returned text does not. */
  lemma NewlineIsReturned()
    ensures var url := "/numbers/1\n";
            && IsMatch(NUMBER_ROUTE, url, 0, 10) && url[9..10] == "1"
            && Matched(NUMBER_ROUTE, url) == Some("1\n")
  {
    var url := "/numbers/1\n";
    assert url[0..9] == "/numbers/";
    assert MatchAt(NUMBER_ROUTE, url, 0, 10);
    SearchIsLeftmost(NUMBER_ROUTE, url);
    assert url[9..] == "1\n";
  }

  predicate HasNoNewline(url: string) {
    forall i :: 0 <= i < |url| ==> url[i] != NEWLINE
  }

  ghost predicate IsLast(p: Pattern, url: string, i: nat) {
    LiteralAt(p, url, i) && forall j: nat :: LiteralAt(p, url, j) ==> j <= i
  }

  ghost predicate IsFirst(p: Pattern, url: string, i: nat) {
    LiteralAt(p, url, i) && forall j: nat :: LiteralAt(p, url, j) ==> i <= j
  }

  lemma NumbersOverlap(url: string, j: nat, i: nat)
    requires j < i && LiteralAt(NUMBER_ROUTE, url, j) && LiteralAt(NUMBER_ROUTE, url, i)
    ensures j + 8 <= i && url[i] == '/' && url[i + 1] == 'n'
  {
    var s, t := url[j..j + 9], url[i..i + 9];
    assert url[i] == t[0] && url[i + 1] == t[1];
    assert forall k :: j < k < j + 8 ==> url[k] == s[k - j] != '/';
  }

  /** Without newlines the number is the text after the last "/numbers/", if that is a number. */
  lemma NumberIsAfterLast(url: string, i: nat)
    requires HasNoNewline(url) && IsLast(NUMBER_ROUTE, url, i)
    ensures Matched(NUMBER_ROUTE, url) == if IsNumber(url, i + 9, |url|) then Some(url[i + 9..]) else None
  {
    var p := NUMBER_ROUTE;
    SearchIsLeftmost(p, url);
    assert MatchAt(p, url, i, |url|) <==> IsNumber(url, i + 9, |url|);
    forall j: nat, e: nat | MatchAt(p, url, j, e)
      ensures j == i && e == |url|
    {
      assert e == |url|;
      if j < i {
        NumbersOverlap(url, j, i);
        assert false;
      }
    }
  }

  /** Without newlines the address is everything after the first "/ip-addresses/", if that is not nothing. */
  lemma AddressIsAfterFirst(url: string, i: nat)
    requires HasNoNewline(url) && IsFirst(IP_ADDRESS_ROUTE, url, i)
    ensures Matched(IP_ADDRESS_ROUTE, url) == if i + 14 < |url| then Some(url[i + 14..]) else None
  {
    SearchIsLeftmost(IP_ADDRESS_ROUTE, url);
    if i + 14 < |url| {
      assert MatchAt(IP_ADDRESS_ROUTE, url, i, |url|);
    }
  }

  /** Without its literal a pattern does not match. */
  lemma NoLiteralNoMatch(p: Pattern, url: string)
    requires forall i: nat :: !LiteralAt(p, url, i)
    ensures Matched(p, url) == None
  {
    SearchIsLeftmost(p, url);
  }

  // ----- the two patterns, spelled out -----

  /** Here an address starts: "/ip-addresses/" with at least one more byte on the line. */
  predicate AddressAt(url: string, i: nat) {
    i + 14 < |url| && url[i..i + 14] == "/ip-addresses/" && url[i + 14] != '\n'
  }

  ghost predicate FirstAddressAt(url: string, i: nat) {
    AddressAt(url, i) && forall j: nat :: AddressAt(url, j) ==> i <= j
  }

  /** Digits, one at least, with an optional plus in front and an optional newline behind. */
  predicate IsNumberText(s: string) {
    var line := if s != "" && s[|s| - 1] == '\n' then s[..|s| - 1] else s;
    var digits := if line != "" && line[0] == '+' then line[1..] else line;
    digits != "" && forall k :: 0 <= k < |digits| ==> '0' <= digits[k] <= '9'
  }

  /** From here to the end the URL is "/numbers/" and a number. */
  predicate NumberAt(url: string, i: nat) {
    i + 9 <= |url| && url[i..i + 9] == "/numbers/" && IsNumberText(url[i + 9..])
  }

  lemma AddressSpelledOut(url: string)
    ensures (forall i: nat :: !AddressAt(url, i)) ==> Matched(IP_ADDRESS_ROUTE, url) == None
    ensures forall i: nat :: FirstAddressAt(url, i) ==> Matched(IP_ADDRESS_ROUTE, url) == Some(url[i + 14..])
  {
    SearchIsLeftmost(IP_ADDRESS_ROUTE, url);
    forall i: nat, e: nat | MatchAt(IP_ADDRESS_ROUTE, url, i, e)
      ensures AddressAt(url, i)
    {
    }
    forall i: nat | AddressAt(url, i)
      ensures MatchAt(IP_ADDRESS_ROUTE, url, i, i + 15)
    {
    }
  }

  lemma NumberEnds(url: string, s: nat, e: nat)
    requires IsNumber(url, s, e) && AtEnd(url, e)
    ensures IsNumberText(url[s..])
  {
    var text := url[s..];
    var line := if text[|text| - 1] == '\n' then text[..|text| - 1] else text;
    assert line == url[s..e];
  }

  lemma NumberTextEnds(url: string, s: nat) returns (e: nat)
    requires s <= |url| && IsNumberText(url[s..])
    ensures IsNumber(url, s, e) && AtEnd(url, e)
  {
    var text := url[s..];
    e := if text[|text| - 1] == '\n' then |url| - 1 else |url|;
    var line := url[s..e];
    assert line == if text[|text| - 1] == '\n' then text[..|text| - 1] else text;
    var digits := if line[0] == '+' then line[1..] else line;
    forall k | s < k < e
      ensures IsDigit(url[k])
    {
      assert url[k] == line[k - s] == digits[|digits| - (e - k)];
    }
    assert url[s] == line[0];
  }

  lemma NumberSpelledOut(url: string)
    ensures (forall i: nat :: !NumberAt(url, i)) ==> Matched(NUMBER_ROUTE, url) == None
    ensures forall i: nat :: NumberAt(url, i) ==> Matched(NUMBER_ROUTE, url) == Some(url[i + 9..])
  {
    SearchIsLeftmost(NUMBER_ROUTE, url);
    forall i: nat, e: nat | MatchAt(NUMBER_ROUTE, url, i, e)
      ensures NumberAt(url, i)
    {
      NumberEnds(url, i + 9, e);
    }
    forall i: nat | NumberAt(url, i)
      ensures Matched(NUMBER_ROUTE, url) == Some(url[i + 9..])
    {
      var e := NumberTextEnds(url, i + 9);
      assert MatchAt(NUMBER_ROUTE, url, i, e);
      var m := Search(NUMBER_ROUTE, url, 0).value;
      OneNumber(url, m.from, m.end, i, e);
    }
  }

  lemma OneNumber(url: string, j: nat, f: nat, i: nat, e: nat)
    requires MatchAt(NUMBER_ROUTE, url, j, f) && MatchAt(NUMBER_ROUTE, url, i, e) && j <= i
    ensures i == j
  {
    if j < i {
      NumbersOverlap(url, j, i);
      assert false;
    }
  }

  // ----- dispatch -----

  /** What a URL is answered with; the address of a `BadAddress` did not pass the validator. */
  datatype Route =
    | HealthCheck
    | HomePage
    | IpAddresses
    | IpAddress(ip: string)
    | BadAddress
    | Numbers
    | CalledNumber(number: string)
    | Page(text: string)
    | NotFound

  /** A dispatch table for the exact routes. "/ip-addresses/ipset" is missing: it is never reached. */
  function Exact(url: string): Option<Route> {
    if url == HEALTH_CHECK_ROUTE then Some(HealthCheck)
    else if url == HOME_PAGE_ROUTE then Some(HomePage)
    else if url == IP_ADDRESSES_ROUTE then Some(IpAddresses)
    else if url == NUMBERS_ROUTE then Some(Numbers)
    else if url in {COUNTRIES_ROUTE, COUNTRY_ROUTE, COUNTRY_CITY_ROUTE, USER_AGENTS_ROUTE, USER_AGENT_ROUTE,
                    SIP_METHODS_ROUTE, SIP_METHOD_ROUTE} then Some(Page(url))
    else None
  }

  /** The reference: table first, then the two patterns. */
  function Dispatched(url: string, valid: string -> bool): Route {
    if Exact(url).Some? then Exact(url).value
    else if Matched(IP_ADDRESS_ROUTE, url).Some? then
      var ip := Matched(IP_ADDRESS_ROUTE, url).value;
      if valid(ip) then IpAddress(ip) else BadAddress
    else if Matched(NUMBER_ROUTE, url).Some? then CalledNumber(Matched(NUMBER_ROUTE, url).value)
    else NotFound
  }

  /** No slash of the text is followed by the byte. */
  predicate Avoids(url: string, c: char) {
    forall i :: 0 <= i && i + 1 < |url| && url[i] == '/' ==> url[i + 1] != c
  }

  lemma AvoidedLiteral(p: Pattern, url: string)
    requires |p.literal| > 1 && p.literal[0] == '/'
    requires |url| <= |p.literal| || Avoids(url, p.literal[1])
    ensures Matched(p, url) == None
  {
    SearchIsLeftmost(p, url);
    LiteralStart(p, url);
  }

  lemma LiteralStart(p: Pattern, url: string)
    requires |p.literal| > 1
    ensures forall i: nat :: LiteralAt(p, url, i) ==> url[i] == p.literal[0] && url[i + 1] == p.literal[1]
  {
    forall i: nat | LiteralAt(p, url, i)
      ensures url[i] == p.literal[0] && url[i + 1] == p.literal[1]
    {
      var s := url[i..i + |p.literal|];
      assert url[i] == s[0] && url[i + 1] == s[1];
    }
  }

  lemma ShortRoutesAvoid()
    ensures Avoids(HEALTH_CHECK_ROUTE, 'n') && Avoids(IP_ADDRESSES_ROUTE, 'n') && Avoids(COUNTRIES_ROUTE, 'n')
    ensures Avoids(USER_AGENTS_ROUTE, 'n') && Avoids(SIP_METHODS_ROUTE, 'n')
  {
  }

  lemma LongRoutesAvoid()
    ensures Avoids(COUNTRY_ROUTE, 'n') && Avoids(COUNTRY_CITY_ROUTE, 'n') && Avoids(USER_AGENT_ROUTE, 'n')
    ensures Avoids(COUNTRY_ROUTE, 'i') && Avoids(COUNTRY_CITY_ROUTE, 'i') && Avoids(USER_AGENT_ROUTE, 'i')
    ensures Avoids(SIP_METHOD_ROUTE, 'n') && Avoids(SIP_METHOD_ROUTE, 'i')
  {
  }

  /** No exact route of the table matches a pattern, so the order of the checks does not matter. */
  lemma ExactRoutesDoNotMatch(url: string)
    requires Exact(url).Some?
    ensures Matched(IP_ADDRESS_ROUTE, url) == None && Matched(NUMBER_ROUTE, url) == None
  {
    ShortRoutesAvoid();
    LongRoutesAvoid();
    AvoidedLiteral(IP_ADDRESS_ROUTE, url);
    AvoidedLiteral(NUMBER_ROUTE, url);
  }

  /** The ipset page has an exact route of its own, but the address pattern takes its URL first. */
  lemma IpsetIsShadowed(valid: string -> bool)
    ensures Matched(IP_ADDRESS_ROUTE, IP_ADDRESSES_IPSET_ROUTE) == Some("ipset")
    ensures Dispatched(IP_ADDRESSES_IPSET_ROUTE, valid) == if valid("ipset") then IpAddress("ipset") else BadAddress
  {
    var url := IP_ADDRESSES_IPSET_ROUTE;
    assert url[0..14] == "/ip-addresses/" && url[14..] == "ipset";
    assert IsFirst(IP_ADDRESS_ROUTE, url, 0);
    AddressIsAfterFirst(url, 0);
  }

  /** The checks in the order of the program. */
  method Dispatch(url: string, valid: string -> bool) returns (route: Route)
    ensures route == Dispatched(url, valid)
  {
    if Exact(url).Some? {
      ExactRoutesDoNotMatch(url);
    }
    IpsetIsShadowed(valid);
    if url == HEALTH_CHECK_ROUTE {
      route := HealthCheck;
    } else if url == HOME_PAGE_ROUTE {
      route := HomePage;
    } else if url == IP_ADDRESSES_ROUTE {
      route := IpAddresses;
    } else {
      var ip := RegexMatch(url, IP_ADDRESS_ROUTE);
      if ip.Some? {
        route := if valid(ip.value) then IpAddress(ip.value) else BadAddress;
      } else if url == IP_ADDRESSES_IPSET_ROUTE {
        route := Page(url);
      } else if url == NUMBERS_ROUTE {
        route := Numbers;
      } else {
        var number := RegexMatch(url, NUMBER_ROUTE);
        if number.Some? {
          route := CalledNumber(number.value);
        } else if url == COUNTRIES_ROUTE || url == COUNTRY_ROUTE || url == COUNTRY_CITY_ROUTE
          || url == USER_AGENTS_ROUTE || url == USER_AGENT_ROUTE || url == SIP_METHODS_ROUTE || url == SIP_METHOD_ROUTE {
          route := Page(url);
        } else {
          route := NotFound;
        }
      }
    }
  }

  // ----- one connection -----

  datatype Query = AllBadActors | BadActorByIp(ip: string) | AllCalledNumbers | PhoneNumber(number: string)

  /** What a response carries; `Rows` and `NoRows` answer a query. */
  datatype Reply = Hello | StatusOk | Rows(query: Query) | NoRows(query: Query) | BadData | Text(text: string) | NoRoute

  datatype Response = Response(status: int, reply: Reply)

  /** The query of a route, if it has one. */
  function QueryOf(route: Route): Option<Query> {
    match route
    case IpAddresses => Some(AllBadActors)
    case IpAddress(ip) => Some(BadActorByIp(ip))
    case Numbers => Some(AllCalledNumbers)
    case CalledNumber(number) => Some(PhoneNumber(number))
    case _ => None
  }

  function ResponseTo(route: Route, found: Query -> bool): Response {
    match route
    case HealthCheck => Response(200, Hello)
    case HomePage => Response(200, StatusOk)
    case BadAddress => Response(400, BadData)
    case Page(text) => Response(200, Text(text))
    case NotFound => Response(404, NoRoute)
    case _ =>
      var query := QueryOf(route).value;
      if found(query) then Response(200, Rows(query)) else Response(404, NoRows(query))
  }

  /** One call of the handler. `found`: what the database answers; the rest is what the HTTP library reports. */
  datatype Call = Call(
    isGet: bool, url: string, uploadSize: nat, found: Query -> bool, created: bool, queued: bool, headers: bool)

  /** The state a connection keeps: whether the context pointer is set, and what was asked and answered so far. */
  datatype Conn = Conn(context: bool, queries: seq<Query>, responses: seq<Response>)

  function Asked(route: Route): seq<Query> {
    if QueryOf(route).Some? then [QueryOf(route).value] else []
  }

  function Sent(route: Route, call: Call): seq<Response> {
    if call.created && call.queued then [ResponseTo(route, call.found)] else []
  }

  function After(c: Conn, call: Call, valid: string -> bool): Conn {
    if !call.isGet then c
    else if !c.context then c.(context := true)
    else if call.uploadSize != 0 then c
    else
      var route := Dispatched(call.url, valid);
      Conn(false, c.queries + Asked(route), c.responses + Sent(route, call))
  }

  class Connection {
    var context: bool
    var queries: seq<Query>
    var responses: seq<Response>

    function View(): Conn
      reads this
    {
      Conn(context, queries, responses)
    }

    constructor ()
      ensures View() == Conn(false, [], [])
    {
      context, queries, responses := false, [], [];
    }

    method FinaliseResponse(status: int, reply: Reply, call: Call) returns (yes: bool)
      modifies `responses
      ensures responses == old(responses) + if call.created && call.queued then [Response(status, reply)] else []
      ensures yes == (call.created && call.queued && call.headers)
    {
      if !call.created {
        return false;
      }
      if call.queued {
        responses := responses + [Response(status, reply)];
      }
      if !call.headers {
        return false;
      }
      return call.queued;
    }

    /** A route that asks the database: the rows with 200, or 404. */
    method QueryRoute(query: Query, call: Call) returns (yes: bool)
      modifies `queries, `responses
      ensures queries == old(queries) + [query]
      ensures responses == old(responses) +
                           if call.created && call.queued
                           then [if call.found(query) then Response(200, Rows(query)) else Response(404, NoRows(query))] else []
      ensures yes == (call.created && call.queued && call.headers)
    {
      queries := queries + [query];
      if call.found(query) {
        yes := FinaliseResponse(200, Rows(query), call);
      } else {
        yes := FinaliseResponse(404, NoRows(query), call);
      }
    }

    /** `route_handler` */
    method RouteHandler(call: Call, valid: string -> bool) returns (yes: bool)
      modifies this
      ensures View() == After(old(View()), call, valid)
      ensures old(queries) <= queries && old(responses) <= responses
      ensures call.isGet && old(context) && call.uploadSize == 0 && call.created && call.queued ==>
                && !context && |responses| == |old(responses)| + 1
                && IsAnswered(call.url, valid, call.found, queries[|old(queries)|..], responses[|old(responses)|])
      ensures yes == (call.isGet && (!old(context) || (call.uploadSize == 0 && call.created && call.queued && call.headers)))
    {
      if !call.isGet {
        return false;
      }
      if !context {
        context := true;
        return true;
      }
      if call.uploadSize != 0 {
        return false;
      }
      context := false;
      var route := Dispatch(call.url, valid);
      DispatchedIsAnswered(call.url, valid, call.found);
      match route {
        case HealthCheck => yes := FinaliseResponse(200, Hello, call);
        case HomePage => yes := FinaliseResponse(200, StatusOk, call);
        case IpAddresses => yes := QueryRoute(AllBadActors, call);
        case IpAddress(ip) => yes := QueryRoute(BadActorByIp(ip), call);
        case BadAddress => yes := FinaliseResponse(400, BadData, call);
        case Numbers => yes := QueryRoute(AllCalledNumbers, call);
        case CalledNumber(number) => yes := QueryRoute(PhoneNumber(number), call);
        case Page(text) => yes := FinaliseResponse(200, Text(text), call);
        case NotFound => yes := FinaliseResponse(404, NoRoute, call);
      }
    }
  }

  // ----- what one GET asks and answers -----

  /** A query and its answer: the rows, or not found. */
  predicate IsAsked(query: Query, found: Query -> bool, queries: seq<Query>, response: Response) {
    queries == [query] && response == if found(query) then Response(200, Rows(query)) else Response(404, NoRows(query))
  }

  predicate IsPage(url: string) {
    url in {"/countries", "/countries/:country", "/countries/:country/:city", "/user-agents", "/user-agents/:user_agent",
            "/sip-methods", "/sip-methods/:sip_method"}
  }

  /** The exact URLs. */
  predicate ExactAnswer(url: string, found: Query -> bool, queries: seq<Query>, response: Response) {
    && (url == "/health-check" ==> queries == [] && response == Response(200, Hello))
    && (url == "/" ==> queries == [] && response == Response(200, StatusOk))
    && (url == "/ip-addresses" ==> IsAsked(AllBadActors, found, queries, response))
    && (url == "/numbers" ==> IsAsked(AllCalledNumbers, found, queries, response))
    && (IsPage(url) ==> queries == [] && response == Response(200, Text(url)))
  }

  /** A URL with an address, valid or not. */
  ghost predicate AddressAnswer(
    url: string, valid: string -> bool, found: Query -> bool, queries: seq<Query>, response: Response)
  {
    forall i: nat :: FirstAddressAt(url, i) ==>
      if valid(url[i + 14..]) then IsAsked(BadActorByIp(url[i + 14..]), found, queries, response)
      else queries == [] && response == Response(400, BadData)
  }

  ghost predicate HasNoAddress(url: string) {
    forall i: nat :: !AddressAt(url, i)
  }

  ghost predicate HasNoNumber(url: string) {
    forall i: nat :: !NumberAt(url, i)
  }

  /** A URL with a number and no address. */
  ghost predicate NumberAnswer(url: string, found: Query -> bool, queries: seq<Query>, response: Response) {
    HasNoAddress(url) ==>
      forall i: nat :: NumberAt(url, i) ==> IsAsked(PhoneNumber(url[i + 9..]), found, queries, response)
  }

  predicate IsExact(url: string) {
    url in {"/health-check", "/", "/ip-addresses", "/numbers"} || IsPage(url)
  }

  /** Every URL: what is asked of the database and what is answered. */
  ghost predicate IsAnswered(
    url: string, valid: string -> bool, found: Query -> bool, queries: seq<Query>, response: Response)
  {
    && ExactAnswer(url, found, queries, response)
    && AddressAnswer(url, valid, found, queries, response)
    && NumberAnswer(url, found, queries, response)
    && (!IsExact(url) && HasNoAddress(url) && HasNoNumber(url) ==> queries == [] && response == Response(404, NoRoute))
  }

  lemma ExactSpelledOut(url: string, valid: string -> bool, found: Query -> bool)
    ensures IsExact(url) <==> Exact(url).Some?
    ensures var route := Dispatched(url, valid); ExactAnswer(url, found, Asked(route), ResponseTo(route, found))
  {
  }

  lemma AddressIsAnswered(url: string, valid: string -> bool, found: Query -> bool)
    ensures var route := Dispatched(url, valid); AddressAnswer(url, valid, found, Asked(route), ResponseTo(route, found))
  {
    AddressSpelledOut(url);
    if Exact(url).Some? {
      ExactRoutesDoNotMatch(url);
    }
  }

  lemma NumberIsAnswered(url: string, valid: string -> bool, found: Query -> bool)
    ensures var route := Dispatched(url, valid); NumberAnswer(url, found, Asked(route), ResponseTo(route, found))
  {
    AddressSpelledOut(url);
    NumberSpelledOut(url);
    if Exact(url).Some? {
      ExactRoutesDoNotMatch(url);
    }
  }

  lemma DispatchedIsAnswered(url: string, valid: string -> bool, found: Query -> bool)
    ensures var route := Dispatched(url, valid);
            IsAnswered(url, valid, found, Asked(route), ResponseTo(route, found))
  {
    ExactSpelledOut(url, valid, found);
    AddressIsAnswered(url, valid, found);
    NumberIsAnswered(url, valid, found);
    if !IsExact(url) && HasNoAddress(url) && HasNoNumber(url) {
      AddressSpelledOut(url);
      NumberSpelledOut(url);
    }
  }

  /** A response answers the one query that was asked, if any was. */
  lemma AnswersItsQuery(url: string, valid: string -> bool, found: Query -> bool, queries: seq<Query>, response: Response)
    requires IsAnswered(url, valid, found, queries, response)
    ensures |queries| <= 1
    ensures queries == [] <==> !response.reply.Rows? && !response.reply.NoRows?
    ensures forall q :: q in queries ==> response == if found(q) then Response(200, Rows(q)) else Response(404, NoRows(q))
  {
    AddressOrNone(url);
    AddressSpelledOut(url);
  }

  lemma AddressOrNone(url: string)
    ensures HasNoAddress(url) || exists i: nat :: FirstAddressAt(url, i)
  {
    if !HasNoAddress(url) {
      var k: nat :| AddressAt(url, k);
      LeastAddress(url, k);
    }
  }

  lemma {:induction false} LeastAddress(url: string, k: nat)
    requires AddressAt(url, k)
    ensures exists i: nat :: FirstAddressAt(url, i)
  {
    if j: nat :| j < k && AddressAt(url, j) {
      LeastAddress(url, j);
    } else {
      assert FirstAddressAt(url, k);
    }
  }

  // ----- whole connections -----

  function AfterAll(c: Conn, calls: seq<Call>, valid: string -> bool): Conn {
    if calls == [] then c else After(AfterAll(c, calls[..|calls| - 1], valid), calls[|calls| - 1], valid)
  }

  function GetCalls(calls: seq<Call>): nat {
    if calls == [] then 0 else GetCalls(calls[..|calls| - 1]) + if calls[|calls| - 1].isGet then 1 else 0
  }

  /** A query that a connection may put to the database. */
  predicate IsScreened(q: Query, valid: string -> bool) {
    && (q.BadActorByIp? ==> valid(q.ip))
    && (q.PhoneNumber? ==> q.number != "" && (q.number[0] == '+' || IsDigit(q.number[0])))
  }

  /** Over any calls: each response took two GET calls, and only screened texts reach the database. */
  lemma {:induction false} ConnectionInvariant(c: Conn, calls: seq<Call>, valid: string -> bool)
    requires c == Conn(false, [], [])
    ensures var c' := AfterAll(c, calls, valid);
            && 2 * |c'.responses| + (if c'.context then 1 else 0) <= GetCalls(calls)
            && forall q :: q in c'.queries ==> IsScreened(q, valid)
  {
    if calls != [] {
      var last := calls[|calls| - 1];
      ConnectionInvariant(c, calls[..|calls| - 1], valid);
      DispatchScreens(last.url, valid);
    }
  }

  lemma DispatchScreens(url: string, valid: string -> bool)
    ensures forall q :: q in Asked(Dispatched(url, valid)) ==> IsScreened(q, valid)
  {
    SearchIsLeftmost(NUMBER_ROUTE, url);
  }

  /** The two calls of one GET that the library makes when nothing fails. */
  function Get(url: string, found: Query -> bool): seq<Call> {
    [Call(true, url, 0, found, true, true, true), Call(true, url, 0, found, true, true, true)]
  }

  function Gets(urls: seq<string>, found: Query -> bool): seq<Call> {
    if urls == [] then [] else Gets(urls[..|urls| - 1], found) + Get(urls[|urls| - 1], found)
  }

  /** One GET after the other on one connection: one response each, in order, and the context is clear again. */
  lemma {:induction false} OneResponsePerGet(urls: seq<string>, valid: string -> bool, found: Query -> bool)
    returns (asked: seq<seq<Query>>)
    ensures var c := AfterAll(Conn(false, [], []), Gets(urls, found), valid);
            !c.context && c.queries == Joined(asked) && AreAnswered(urls, valid, found, asked, c.responses)
  {
    asked := [];
    if urls != [] {
      var before, url := urls[..|urls| - 1], urls[|urls| - 1];
      var earlier := OneResponsePerGet(before, valid, found);
      AfterGet(Conn(false, [], []), Gets(before, found), url, valid, found);
      DispatchedIsAnswered(url, valid, found);
      asked := earlier + [Asked(Dispatched(url, valid))];
      assert asked[..|asked| - 1] == earlier && urls == before + [url];
    }
  }

  /** A response for each URL, in order, with the queries it took. */
  ghost predicate AreAnswered(
    urls: seq<string>, valid: string -> bool, found: Query -> bool, asked: seq<seq<Query>>, responses: seq<Response>)
  {
    && |asked| == |urls| == |responses|
    && forall i :: 0 <= i < |urls| ==> IsAnswered(urls[i], valid, found, asked[i], responses[i])
  }

  function Joined(asked: seq<seq<Query>>): seq<Query> {
    if asked == [] then [] else Joined(asked[..|asked| - 1]) + asked[|asked| - 1]
  }

  lemma AfterGet(c: Conn, calls: seq<Call>, url: string, valid: string -> bool, found: Query -> bool)
    requires !AfterAll(c, calls, valid).context
    ensures var c', route := AfterAll(c, calls, valid), Dispatched(url, valid);
            AfterAll(c, calls + Get(url, found), valid) ==
            Conn(false, c'.queries + Asked(route), c'.responses + [ResponseTo(route, found)])
  {
    var get := Get(url, found);
    var all := calls + get;
    assert all[..|all| - 1] == calls + [get[0]] && (calls + [get[0]])[..|calls|] == calls;
  }
}

/**
 The blocked-destination rules: their file, the canonical form of a destination,
 and the check. Texts are byte strings. Parsing a reference into its components,
 parsing an address and the IDNA mapping of a name are parameters.
 */
module Rules {
  import opened ByteOrder
  import opened Options
  import opened Text
  import opened Separated
  import opened Escapes
  import opened Path
  import Decimal

  /** The components of a parsed reference; `bare` is what stands in place of authority and path. */
  datatype Url = Url(scheme: string, bare: string, hasUser: bool, host: string, hostname: string, port: string,
                     escapedPath: string, rawQuery: string, forceQuery: bool)

  /** A parsed address, printed in its unmapped form. */
  datatype Address = Address(zone: string, isV6: bool, text: string)

  datatype World = World(parse: string -> Option<Url>, address: string -> Option<Address>,
        idna: string -> Option<string>)

  const MAXIMUM_RULES := 256
  const MAXIMUM_PORT := 65_535

  function LowerChar(c: char): char {
    if 'A' <= c <= 'Z' then (c as int + 32) as char else c
  }

  function Lower(s: string): (t: string)
    ensures |t| == |s|
  {
    seq(|s|, i requires 0 <= i < |s| => LowerChar(s[i]))
  }

  predicate LabelChar(c: char) {
    'a' <= c <= 'z' || '0' <= c <= '9' || c == '-'
  }

  predicate ValidLabel(part: string) {
    1 <= |part| <= 63 && part[0] != '-' && part[|part| - 1] != '-' && forall i | 0 <= i < |part| :: LabelChar(part[i])
  }

  predicate ValidDnsName(host: string) {
    1 <= |host| <= 253 && forall part | part in SplitOn(host, '.') :: ValidLabel(part)
  }

  function CanonicalDomain(w: World, raw: string): Option<string> {
    if raw == "" || EndsWith(raw, ".") || w.address(raw).Some? || w.idna(raw).None? then None
    else if ValidDnsName(Lower(w.idna(raw).value)) then Some(Lower(w.idna(raw).value))
    else None
  }

  /** A host as it stands in a URL, and as domain rules see it. */
  datatype Host = Host(url: string, domain: string)

  function CanonicalHost(w: World, hostname: string): Option<Host> {
    if hostname == "" || EndsWith(hostname, ".") then None
    else match w.address(hostname)
      case Some(address) =>
        if address.zone != "" then None
        else Some(Host(if address.isV6 then "[" + address.text + "]" else address.text, address.text))
      case None =>
        var domain := CanonicalDomain(w, hostname);
        if domain.Some? then Some(Host(domain.value, domain.value)) else None
  }

  function WithPort(host: string, scheme: string, port: string): string {
    if (scheme == "http" && port == "80") || (scheme == "https" && port == "443") then host else host + ":" + port
  }

  /** Scheme, host, normal path and canonical query put together. */
  function Assemble(scheme: string, host: string, p: Url): Option<string> {
    var path := NormalPath(if p.escapedPath == "" then "/" else p.escapedPath);
    var query := CanonicalEscapes(p.rawQuery);
    if path.None? || query.None? then None
    else Some(scheme + "://" + host + path.value + if p.forceQuery || query.value != "" then "?" + query.value else "")
  }

  /** The strict form demanded of a rule. */
  function CanonicalUrl(w: World, raw: string): Option<string> {
    if '\\' in raw || w.parse(raw).None? then None
    else
      var p := w.parse(raw).value;
      if p.bare != "" || p.hasUser || p.host == "" || (p.scheme != "http" && p.scheme != "https") then None
      else
        var host := CanonicalHost(w, p.hostname);
        if host.None? then None
        else if p.port == "" then Assemble(p.scheme, host.value.url, p)
        else
          var value := Decimal.Parse(p.port, MAXIMUM_PORT);
          if value.None? || value.value == 0 || Decimal.Format(value.value) != p.port then None
          else Assemble(p.scheme, WithPort(host.value.url, p.scheme, p.port), p)
  }

  /** What an author's destination is: an error, not an HTTP URL, or one with its canonical form and host. */
  datatype Destination = Invalid | NotExternal | External(canonical: string, host: string)

  predicate LooksLikeHttp(raw: string) {
    StartsWith(Lower(raw), "http:") || StartsWith(Lower(raw), "https:")
  }

  function WithoutFinalDot(hostname: string): string {
    if EndsWith(hostname, ".") then hostname[..|hostname| - 1] else hostname
  }

  /** The lenient form of an author's destination. */
  function AuthoredUrl(w: World, raw: string): Destination {
    if w.parse(raw).None? then (if LooksLikeHttp(raw) then Invalid else NotExternal)
    else
      var p := w.parse(raw).value;
      var scheme := Lower(p.scheme);
      if scheme != "http" && scheme != "https" then (if LooksLikeHttp(raw) then Invalid else NotExternal)
      else if p.bare != "" || p.host == "" then Invalid
      else
        var host := CanonicalHost(w, WithoutFinalDot(p.hostname));
        if host.None? then Invalid
        else
          var value := Decimal.Parse(p.port, MAXIMUM_PORT);
          if p.port != "" && (value.None? || value.value == 0) then Invalid
          else
            var urlHost := if p.port == "" then host.value.url
                           else WithPort(host.value.url, scheme, Decimal.Format(value.value));
            var canonical := Assemble(scheme, urlHost, p);
            if canonical.None? then Invalid else External(canonical.value, host.value.domain)
  }

  // ---- Lists in byte order ----

  predicate Ascending(lines: seq<string>) {
    forall i, j | 0 <= i < j < |lines| :: Less(lines[i], lines[j])
  }

  lemma {:induction false} AscendingMore(lines: seq<string>, line: string)
    requires Ascending(lines) && (lines != [] ==> Less(lines[|lines| - 1], line))
    ensures Ascending(lines + [line])
  {
    forall i | 0 <= i < |lines|
      ensures Less(lines[i], line)
    {
      if i < |lines| - 1 {
        LessIsTransitive(lines[i], lines[|lines| - 1], line);
      }
    }
  }

  /** The standard library's search, on a list in ascending order. */
  method BinarySearch(urls: seq<string>, target: string) returns (position: nat, found: bool)
    requires Ascending(urls)
    ensures found <==> target in urls
    ensures position <= |urls| && (forall i | 0 <= i < position :: Less(urls[i], target))
            && forall i | position <= i < |urls| :: !Less(urls[i], target)
  {
    var low: nat, high: nat := 0, |urls|;
    while low < high
      invariant low <= high <= |urls|
      invariant forall i | 0 <= i < low :: Less(urls[i], target)
      invariant forall i | high <= i < |urls| :: !Less(urls[i], target)
    {
      var middle := (low + high) / 2;
      if Less(urls[middle], target) {
        forall i | 0 <= i < middle
          ensures Less(urls[i], target)
        {
          LessIsTransitive(urls[i], urls[middle], target);
        }
        low := middle + 1;
      } else {
        forall i | middle < i < |urls|
          ensures !Less(urls[i], target)
        {
          if Less(urls[i], target) {
            LessIsTransitive(urls[middle], urls[i], target);
          }
        }
        high := middle;
      }
    }
    position, found := low, low < |urls| && urls[low] == target;
    if target in urls {
      var i :| 0 <= i < |urls| && urls[i] == target;
      LessIsStrict(target, target);
    }
  }

  // ---- The check ----

  datatype Policy = Policy(validated: bool, domains: seq<string>, urls: seq<string>)

  predicate Usable(policy: Policy) {
    policy.validated && |policy.domains| + |policy.urls| <= MAXIMUM_RULES
  }

  predicate Covers(domain: string, host: string) {
    host == domain || EndsWith(host, "." + domain)
  }

  datatype Verdict = Unusable | Blocked | Allowed

  /** The verdict, with membership where the code searches. */
  function Judged(w: World, policy: Policy, raw: string): Verdict {
    if !Usable(policy) then Unusable
    else if '\\' in raw || StartsWith(raw, "//") then Blocked
    else match AuthoredUrl(w, raw)
      case Invalid => Blocked
      case NotExternal => Allowed
      case External(canonical, host) =>
        if (exists domain | domain in policy.domains :: Covers(domain, host)) || canonical in policy.urls then Blocked
          else Allowed
  }

  method Check(w: World, policy: Policy, raw: string) returns (v: Verdict)
    requires Ascending(policy.urls)
    ensures v == Judged(w, policy, raw)
  {
    hide AuthoredUrl, Covers, StartsWith, Less;
    if !Usable(policy) {
      return Unusable;
    }
    if '\\' in raw || StartsWith(raw, "//") {
      return Blocked;
    }
    var destination := AuthoredUrl(w, raw);
    if destination.Invalid? {
      return Blocked;
    }
    if destination.NotExternal? {
      return Allowed;
    }
    for i := 0 to |policy.domains|
      invariant forall j | 0 <= j < i :: !Covers(policy.domains[j], destination.host)
    {
      if Covers(policy.domains[i], destination.host) {
        assert policy.domains[i] in policy.domains;
        return Blocked;
      }
    }
    var position, found := BinarySearch(policy.urls, destination.canonical);
    return if found then Blocked else Allowed;
  }

  // ---- The file ----

  predicate HasControl(s: string) {
    exists i | 0 <= i < |s| :: s[i] < ' ' || s[i] == 127 as char
  }

  const DOMAIN := "domain="
  const URL := "url="

  predicate GoodLine(w: World, line: string) {
    && line != "" && !HasControl(line)
    && ((StartsWith(line, DOMAIN) && CanonicalDomain(w, line[|DOMAIN|..]) == Some(line[|DOMAIN|..]))
        || (StartsWith(line, URL) && CanonicalUrl(w, line[|URL|..]) == Some(line[|URL|..])))
  }

  /** The values behind `prefix`, in order. */
  function Values(lines: seq<string>, prefix: string): seq<string> {
    if lines == [] then []
    else Values(lines[..|lines| - 1], prefix)
         + (if StartsWith(lines[|lines| - 1], prefix) then [lines[|lines| - 1][|prefix|..]] else [])
  }

  ghost predicate GoodLines(w: World, lines: seq<string>) {
    Ascending(lines) && forall i | 0 <= i < |lines| :: GoodLine(w, lines[i])
  }

  function FileLines(contents: string): seq<string>
    requires EndsWith(contents, "\n")
  {
    SplitOn(contents[..|contents| - 1], '\n')
  }

  ghost function Decoded(w: World, contents: string): Option<Policy> {
    if contents == "" then Some(Policy(false, [], []))
    else if !EndsWith(contents, "\n") || '\r' in contents || '\0' in contents then None
    else
      var lines := FileLines(contents);
      if |lines| > MAXIMUM_RULES || !GoodLines(w, lines) then None
      else Some(Policy(false, Values(lines, DOMAIN), Values(lines, URL)))
  }

  method ScanControl(value: string) returns (found: bool)
    ensures found == HasControl(value)
  {
    for i := 0 to |value|
      invariant forall j | 0 <= j < i :: !(value[j] < ' ' || value[j] == 127 as char)
    {
      if value[i] < ' ' || value[i] == 127 as char {
        return true;
      }
    }
    return false;
  }

  /** The line loop; each line must come after the one before. */
  method DecodePolicy(w: World, contents: string) returns (r: Option<Policy>)
    ensures r == Decoded(w, contents)
  {
    if contents == "" {
      return Some(Policy(false, [], []));
    }
    if !EndsWith(contents, "\n") || '\r' in contents || '\0' in contents {
      return None;
    }
    var lines := FileLines(contents);
    if |lines| > MAXIMUM_RULES {
      return None;
    }
    var previous := "";
    var domains: seq<string>, urls: seq<string> := [], [];
    for i := 0 to |lines|
      invariant GoodLines(w, lines[..i])
      invariant previous == if i == 0 then "" else lines[i - 1]
      invariant domains == Values(lines[..i], DOMAIN) && urls == Values(lines[..i], URL)
    {
      var line := lines[i];
      assert lines[..i + 1][..i] == lines[..i] && lines[..i + 1][i] == line;
      LineCases(w, line);
      hide GoodLine, GoodLines, HasControl, CanonicalDomain, CanonicalUrl, StartsWith, Less;
      if !GoodLine(w, line) || (i > 0 && !Less(lines[i - 1], line)) {
        Refuses(w, lines, i);
      }
      var control := ScanControl(line);
      if line == "" || control || (previous != "" && !Less(previous, line)) {
        NeverBelowEmpty(w, lines, i);
        return None;
      }
      previous := line;
      if StartsWith(line, DOMAIN) {
        var value := line[|DOMAIN|..];
        if CanonicalDomain(w, value) != Some(value) {
          return None;
        }
        domains := domains + [value];
      } else if StartsWith(line, URL) {
        var value := line[|URL|..];
        if CanonicalUrl(w, value) != Some(value) {
          return None;
        }
        urls := urls + [value];
      } else {
        return None;
      }
      NeverBelowEmpty(w, lines, i);
      GoodLinesMore(w, lines, i);
    }
    assert lines[..|lines|] == lines;
    return Some(Policy(false, domains, urls));
  }

  lemma {:induction false} LineCases(w: World, line: string)
    ensures !(StartsWith(line, DOMAIN) && StartsWith(line, URL))
    ensures StartsWith(line, DOMAIN) ==> |line| >= |DOMAIN|
    ensures StartsWith(line, URL) ==> |line| >= |URL|
    ensures GoodLine(w, line) <==>
            && line != "" && !HasControl(line)
            && (if StartsWith(line, DOMAIN) then CanonicalDomain(w, line[|DOMAIN|..]) == Some(line[|DOMAIN|..])
                else StartsWith(line, URL) && CanonicalUrl(w, line[|URL|..]) == Some(line[|URL|..]))
  {
    hide CanonicalDomain, CanonicalUrl, HasControl;
    NotBoth(line);
  }

  /** One bad line, or one out of order, refuses the file. */
  lemma {:induction false} Refuses(w: World, lines: seq<string>, i: nat)
    requires i < |lines| && (!GoodLine(w, lines[i]) || (i > 0 && !Less(lines[i - 1], lines[i])))
    ensures !GoodLines(w, lines)
  {
  }

  /** The remembered line is empty only before the first one. */
  lemma {:induction false} NeverBelowEmpty(w: World, lines: seq<string>, i: nat)
    requires i <= |lines| && GoodLines(w, lines[..i])
    ensures i > 0 ==> lines[i - 1] != ""
  {
    assert i > 0 ==> GoodLine(w, lines[..i][i - 1]);
  }

  lemma {:induction false} NotBoth(line: string)
    ensures !(StartsWith(line, DOMAIN) && StartsWith(line, URL))
  {
    if StartsWith(line, DOMAIN) {
      assert line[..|DOMAIN|][0] == line[0];
    }
    if StartsWith(line, URL) {
      assert line[..|URL|][0] == line[0];
    }
  }

  lemma {:induction false} GoodLinesMore(w: World, lines: seq<string>, i: nat)
    requires i < |lines| && GoodLines(w, lines[..i]) && GoodLine(w, lines[i])
             && (i > 0 ==> Less(lines[i - 1], lines[i]))
    ensures GoodLines(w, lines[..i + 1])
  {
    hide GoodLine, Less, Ascending;
    var before, after := lines[..i], lines[..i + 1];
    assert after == before + [lines[i]];
    assert before != [] ==> before[|before| - 1] == lines[i - 1];
    AscendingMore(before, lines[i]);
    forall k | 0 <= k < |after|
      ensures GoodLine(w, after[k])
    {
      assert after[k] == if k < i then before[k] else lines[i];
    }
  }

  // ---- The file and its rules determine each other ----

  function Prefixed(prefix: string, values: seq<string>): (lines: seq<string>)
    ensures |lines| == |values|
  {
    seq(|values|, i requires 0 <= i < |values| => prefix + values[i])
  }

  /** The domains, then the URLs, a line each. */
  function RuleLines(p: Policy): seq<string> {
    Prefixed(DOMAIN, p.domains) + Prefixed(URL, p.urls)
  }

  function Print(p: Policy): string {
    if RuleLines(p) == [] then "" else JoinWith(RuleLines(p), '\n') + "\n"
  }

  ghost predicate ValidRules(w: World, p: Policy) {
    && !p.validated && |p.domains| + |p.urls| <= MAXIMUM_RULES && Ascending(p.domains) && Ascending(p.urls)
    && (forall d | d in p.domains :: !HasControl(d) && CanonicalDomain(w, d) == Some(d))
    && (forall u | u in p.urls :: !HasControl(u) && CanonicalUrl(w, u) == Some(u))
  }

  lemma {:induction false} StartsByFirst(line: string, prefix: string)
    requires prefix != "" && StartsWith(line, prefix)
    ensures line != "" && line[0] == prefix[0] && line == prefix + line[|prefix|..]
  {
    assert line[..|prefix|][0] == line[0];
  }

  lemma {:induction false} NoneBehind(lines: seq<string>, prefix: string)
    requires forall i | 0 <= i < |lines| :: !StartsWith(lines[i], prefix)
    ensures Values(lines, prefix) == []
  {
    if lines != [] {
      NoneBehind(lines[..|lines| - 1], prefix);
    }
  }

  /** In ascending order every domain line comes before every URL line. */
  lemma {:induction false} DomainsFirst(lines: seq<string>)
    requires Ascending(lines) && lines != [] && StartsWith(lines[|lines| - 1], DOMAIN)
    ensures forall i | 0 <= i < |lines| :: !StartsWith(lines[i], URL)
  {
    var last := lines[|lines| - 1];
    NotBoth(last);
    hide StartsWith, Less;
    forall i | 0 <= i < |lines| - 1
      ensures !StartsWith(lines[i], URL)
    {
      if StartsWith(lines[i], URL) {
        UrlAfterDomain(lines[i], last);
      }
    }
  }

  lemma {:induction false} UrlAfterDomain(a: string, b: string)
    requires StartsWith(a, URL) && StartsWith(b, DOMAIN)
    ensures !Less(a, b)
  {
    StartsByFirst(a, URL);
    StartsByFirst(b, DOMAIN);
  }

  lemma {:induction false} PrefixedMore(prefix: string, values: seq<string>, value: string)
    ensures Prefixed(prefix, values + [value]) == Prefixed(prefix, values) + [prefix + value]
  {
  }

  /** Accepted lines are the rules' lines. */
  lemma {:induction false} LinesAreRules(w: World, lines: seq<string>)
    requires GoodLines(w, lines)
    ensures lines == Prefixed(DOMAIN, Values(lines, DOMAIN)) + Prefixed(URL, Values(lines, URL))
  {
    if lines != [] {
      var n := |lines| - 1;
      var init, last := lines[..n], lines[n];
      assert lines == init + [last];
      LinesAreRules(w, init);
      assert GoodLine(w, last);
      LineCases(w, last);
      if StartsWith(last, DOMAIN) {
        DomainsFirst(lines);
        hide GoodLine, GoodLines, Less, StartsWith;
        NoneBehind(init, URL);
        StartsAgain(last, DOMAIN);
        PrefixedMore(DOMAIN, Values(init, DOMAIN), last[|DOMAIN|..]);
      } else {
        hide GoodLines, GoodLine, Less, CanonicalUrl, StartsWith;
        StartsAgain(last, URL);
        PrefixedMore(URL, Values(init, URL), last[|URL|..]);
        assert Values(lines, DOMAIN) == Values(init, DOMAIN) + [] == Values(init, DOMAIN);
      }
    }
  }

  lemma {:induction false} StartsAgain(line: string, prefix: string)
    requires StartsWith(line, prefix)
    ensures |line| >= |prefix| && line == prefix + line[|prefix|..]
  {
  }

  lemma {:induction false} LessBehind(prefix: string, a: string, b: string)
    ensures Less(prefix + a, prefix + b) <==> Less(a, b)
  {
    if prefix == "" {
      assert "" + a == a && "" + b == b;
    } else {
      LessBehind(prefix[1..], a, b);
      assert (prefix + a)[1..] == prefix[1..] + a && (prefix + b)[1..] == prefix[1..] + b;
    }
  }

  lemma {:induction false} ControlBehind(prefix: string, value: string)
    requires !HasControl(prefix)
    ensures HasControl(prefix + value) <==> HasControl(value)
  {
    var s := prefix + value;
    if i :| 0 <= i < |value| && (value[i] < ' ' || value[i] == 127 as char) {
      assert s[|prefix| + i] == value[i];
    }
    if i :| 0 <= i < |s| && (s[i] < ' ' || s[i] == 127 as char) {
      if i >= |prefix| {
        assert s[i] == value[i - |prefix|];
      }
    }
  }

  lemma {:induction false} PrefixesArePlain()
    ensures !HasControl(DOMAIN) && !HasControl(URL)
  {
  }

  lemma {:induction false} ValuesBehind(prefix: string, values: seq<string>)
    ensures Values(Prefixed(prefix, values), prefix) == values
  {
    if values != [] {
      var n := |values| - 1;
      ValuesBehind(prefix, values[..n]);
      assert values == values[..n] + [values[n]];
      PrefixedMore(prefix, values[..n], values[n]);
      var lines := Prefixed(prefix, values);
      assert lines[..n] == Prefixed(prefix, values[..n]);
      DropPrefix(prefix, values[n]);
      assert StartsWith(prefix + values[n], prefix);
    }
  }

  lemma {:induction false} ValuesAppend(a: seq<string>, b: seq<string>, prefix: string)
    ensures Values(a + b, prefix) == Values(a, prefix) + Values(b, prefix)
  {
    if b == [] {
      assert a + b == a;
      assert Values(a, prefix) + [] == Values(a, prefix);
    } else {
      var n := |b| - 1;
      ValuesAppend(a, b[..n], prefix);
      assert (a + b)[..|a| + n] == a + b[..n];
    }
  }

  lemma {:induction false} RuleLineIsGood(w: World, p: Policy, i: nat)
    requires ValidRules(w, p) && i < |RuleLines(p)|
    ensures GoodLine(w, RuleLines(p)[i])
    ensures if i < |p.domains| then RuleLines(p)[i] == DOMAIN + p.domains[i]
            else RuleLines(p)[i] == URL + p.urls[i - |p.domains|]
  {
    PrefixesArePlain();
    hide CanonicalDomain, CanonicalUrl, HasControl;
    var line := RuleLines(p)[i];
    if i < |p.domains| {
      ControlBehind(DOMAIN, p.domains[i]);
      DropPrefix(DOMAIN, p.domains[i]);
      assert p.domains[i] in p.domains && StartsWith(line, DOMAIN);
    } else {
      var u := p.urls[i - |p.domains|];
      ControlBehind(URL, u);
      DropPrefix(URL, u);
      assert u in p.urls && StartsWith(line, URL);
    }
  }

  /** The lines of valid rules are accepted. */
  lemma {:induction false} RuleLinesAreGood(w: World, p: Policy)
    requires ValidRules(w, p)
    ensures GoodLines(w, RuleLines(p)) && Values(RuleLines(p), DOMAIN) == p.domains
            && Values(RuleLines(p), URL) == p.urls
  {
    var lines := RuleLines(p);
    forall i, j | 0 <= i < j < |lines|
      ensures Less(lines[i], lines[j])
    {
      RuleLineIsGood(w, p, i);
      RuleLineIsGood(w, p, j);
      if j < |p.domains| {
        LessBehind(DOMAIN, p.domains[i], p.domains[j]);
      } else if i >= |p.domains| {
        LessBehind(URL, p.urls[i - |p.domains|], p.urls[j - |p.domains|]);
      }
    }
    forall i | 0 <= i < |lines|
      ensures GoodLine(w, lines[i])
    {
      RuleLineIsGood(w, p, i);
    }
    RuleValues(p);
  }

  lemma {:induction false} RuleValues(p: Policy)
    ensures Values(RuleLines(p), DOMAIN) == p.domains && Values(RuleLines(p), URL) == p.urls
  {
    var d, u := Prefixed(DOMAIN, p.domains), Prefixed(URL, p.urls);
    ValuesAppend(d, u, DOMAIN);
    ValuesAppend(d, u, URL);
    ValuesBehind(DOMAIN, p.domains);
    ValuesBehind(URL, p.urls);
    forall i | 0 <= i < |d|
      ensures !StartsWith(d[i], URL)
    {
      DropPrefix(DOMAIN, p.domains[i]);
      assert StartsWith(d[i], DOMAIN);
      NotBoth(d[i]);
    }
    forall i | 0 <= i < |u|
      ensures !StartsWith(u[i], DOMAIN)
    {
      DropPrefix(URL, p.urls[i]);
      assert StartsWith(u[i], URL);
      NotBoth(u[i]);
    }
    NoneBehind(d, URL);
    NoneBehind(u, DOMAIN);
  }

  lemma {:induction false} JoinedChars(parts: seq<string>, c: char, x: char)
    requires x in JoinWith(parts, c) && x != c
    ensures exists i :: 0 <= i < |parts| && x in parts[i]
  {
    if |parts| > 1 && x !in parts[0] {
      JoinedChars(parts[1..], c, x);
      var i :| 0 <= i < |parts[1..]| && x in parts[1..][i];
      assert x in parts[i + 1];
    }
  }

  /** A good line holds no line break, carriage return or null. */
  lemma {:induction false} GoodLineIsPlain(w: World, line: string)
    requires GoodLine(w, line)
    ensures '\n' !in line && '\r' !in line && '\0' !in line
  {
  }

  /** The lines of a file that is good lines joined and ended. */
  lemma {:induction false} PrintedReads(w: World, lines: seq<string>)
    requires GoodLines(w, lines) && lines != []
    ensures var contents := JoinWith(lines, '\n') + "\n";
            EndsWith(contents, "\n") && '\r' !in contents && '\0' !in contents && FileLines(contents) == lines
  {
    var joined := JoinWith(lines, '\n');
    var contents := joined + "\n";
    forall i | 0 <= i < |lines|
      ensures '\n' !in lines[i] && '\r' !in lines[i] && '\0' !in lines[i]
    {
      GoodLineIsPlain(w, lines[i]);
    }
    hide GoodLines;
    SplitInvertsJoin(lines, '\n');
    assert contents[..|contents| - 1] == joined;
    if '\r' in joined {
      JoinedChars(lines, '\n', '\r');
    }
    if '\0' in joined {
      JoinedChars(lines, '\n', '\0');
    }
  }

  lemma {:induction false} DecodedIsValid(w: World, contents: string)
    requires Decoded(w, contents).Some?
    ensures ValidRules(w, Decoded(w, contents).value) && contents == Print(Decoded(w, contents).value)
  {
    var p := Decoded(w, contents).value;
    if contents != "" {
      var lines := FileLines(contents);
      LinesAreRules(w, lines);
      JoinInvertsSplit(contents[..|contents| - 1], '\n');
      assert contents == contents[..|contents| - 1] + "\n";
      RulesOfLines(w, lines, p);
    }
  }

  lemma {:induction false} RulesOfLines(w: World, lines: seq<string>, p: Policy)
    requires GoodLines(w, lines) && |lines| <= MAXIMUM_RULES && lines == RuleLines(p) && !p.validated
    ensures ValidRules(w, p)
  {
    PrefixesArePlain();
    hide CanonicalDomain, CanonicalUrl, HasControl;
    var n := |p.domains|;
    forall i | 0 <= i < n
      ensures !HasControl(p.domains[i]) && CanonicalDomain(w, p.domains[i]) == Some(p.domains[i])
    {
      assert lines[i] == DOMAIN + p.domains[i] && GoodLine(w, lines[i]);
      DropPrefix(DOMAIN, p.domains[i]);
      ControlBehind(DOMAIN, p.domains[i]);
      assert StartsWith(lines[i], DOMAIN);
      LineCases(w, lines[i]);
    }
    forall i | 0 <= i < |p.urls|
      ensures !HasControl(p.urls[i]) && CanonicalUrl(w, p.urls[i]) == Some(p.urls[i])
    {
      assert lines[n + i] == URL + p.urls[i] && GoodLine(w, lines[n + i]);
      DropPrefix(URL, p.urls[i]);
      ControlBehind(URL, p.urls[i]);
      assert StartsWith(lines[n + i], URL);
      LineCases(w, lines[n + i]);
    }
    OrderOfLines(lines, p);
  }

  lemma {:induction false} OrderOfLines(lines: seq<string>, p: Policy)
    requires Ascending(lines) && lines == RuleLines(p)
    ensures Ascending(p.domains) && Ascending(p.urls)
  {
    var n := |p.domains|;
    forall i, j | 0 <= i < j < n
      ensures Less(p.domains[i], p.domains[j])
    {
      assert lines[i] == DOMAIN + p.domains[i] && lines[j] == DOMAIN + p.domains[j];
      LessBehind(DOMAIN, p.domains[i], p.domains[j]);
    }
    forall i, j | 0 <= i < j < |p.urls|
      ensures Less(p.urls[i], p.urls[j])
    {
      assert lines[n + i] == URL + p.urls[i] && lines[n + j] == URL + p.urls[j];
      LessBehind(URL, p.urls[i], p.urls[j]);
    }
  }

  /**
   A file is accepted exactly when it is the printed form of valid rules, and then it
   decodes to those rules: accepted files and valid rules correspond one to one.
   */
  lemma {:induction false} AcceptedExactlyWhenPrinted(w: World, contents: string, p: Policy)
    ensures Decoded(w, contents) == Some(p) <==> ValidRules(w, p) && contents == Print(p)
  {
    if Decoded(w, contents) == Some(p) {
      DecodedIsValid(w, contents);
    }
    if ValidRules(w, p) && contents == Print(p) {
      RuleLinesAreGood(w, p);
      if RuleLines(p) != [] {
        PrintedReads(w, RuleLines(p));
      }
    }
  }

  // ---- Rules block ----

  lemma {:induction false} StrictSchemes(scheme: string)
    requires scheme == "http" || scheme == "https"
    ensures Lower(scheme) == scheme
  {
    assert forall i | 0 <= i < |scheme| :: LowerChar(scheme[i]) == scheme[i];
  }

  /** A reference in strict form has the same lenient form. */
  lemma {:induction false} StrictIsAuthored(w: World, raw: string)
    requires CanonicalUrl(w, raw).Some?
    ensures AuthoredUrl(w, raw).External? && AuthoredUrl(w, raw).canonical == CanonicalUrl(w, raw).value
  {
    var p := w.parse(raw).value;
    StrictSchemes(p.scheme);
    assert !EndsWith(p.hostname, ".");
    hide Assemble, WithPort, CanonicalHost, Lower;
  }

  /** Every URL rule of an accepted file is blocked when an author writes it. */
  lemma {:induction false} RuleIsBlocked(w: World, contents: string, u: string)
    requires Decoded(w, contents).Some? && u in Decoded(w, contents).value.urls
    ensures Judged(w, Decoded(w, contents).value.(validated := true), u) == Blocked
  {
    var p := Decoded(w, contents).value;
    DecodedIsValid(w, contents);
    hide Decoded, AuthoredUrl, CanonicalUrl, CanonicalDomain;
    StrictIsAuthored(w, u);
  }

  /**
   Destinations whose paths and queries differ only in digit case and needless escapes share
   their canonical form and verdict.
   */
  lemma {:induction false} EquivalentDestinationsAgree(w: World, policy: Policy, a: string, b: string)
    requires w.parse(a).Some? && w.parse(b).Some?
    requires var p, q := w.parse(a).value, w.parse(b).value;
             && q == p.(escapedPath := q.escapedPath, rawQuery := q.rawQuery)
             && p.escapedPath != "" && q.escapedPath != ""
             && Equivalent(p.escapedPath, q.escapedPath) && Equivalent(p.rawQuery, q.rawQuery)
    requires AuthoredUrl(w, a).External? && '\\' !in a && '\\' !in b && !StartsWith(a, "//") && !StartsWith(b, "//")
    ensures AuthoredUrl(w, b) == AuthoredUrl(w, a) && Judged(w, policy, b) == Judged(w, policy, a)
  {
    AssembleAgrees(w.parse(a).value, w.parse(b).value);
    hide Assemble, WithPort, CanonicalHost, Lower, StartsWith, Covers, LooksLikeHttp, WithoutFinalDot, Equivalent;
    AuthoredAgrees(w, a, b);
    hide AuthoredUrl;
  }

  lemma {:induction false} AssembleAgrees(p: Url, q: Url)
    requires q == p.(escapedPath := q.escapedPath, rawQuery := q.rawQuery) && p.escapedPath != "" && q.escapedPath != ""
    requires Equivalent(p.escapedPath, q.escapedPath) && Equivalent(p.rawQuery, q.rawQuery)
    ensures forall scheme, host :: Assemble(scheme, host, p) == Assemble(scheme, host, q)
  {
    EquivalentPathsAgree(p.escapedPath, q.escapedPath);
    SameFormExactly(p.rawQuery, q.rawQuery);
    hide NormalPath, CanonicalEscapes, Equivalent;
  }

  lemma {:induction false} AuthoredAgrees(w: World, a: string, b: string)
    requires w.parse(a).Some? && w.parse(b).Some?
    requires var p, q := w.parse(a).value, w.parse(b).value;
             && q == p.(escapedPath := q.escapedPath, rawQuery := q.rawQuery)
             && forall scheme, host :: Assemble(scheme, host, p) == Assemble(scheme, host, q)
    requires AuthoredUrl(w, a).External?
    ensures AuthoredUrl(w, b) == AuthoredUrl(w, a)
  {
    hide Assemble, WithPort, CanonicalHost, Lower, LooksLikeHttp, WithoutFinalDot;
  }
}

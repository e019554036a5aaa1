/** The `/cek` handler: it takes the domain pattern after `/cek *`, tries to
    resolve a fixed, ordered list of subdomains of it and reports one line per
    subdomain. It has no setup guard. Resolution is network I/O, so its
    outcome for each name is a parameter. */
module Wildcard {
  import opened Wrappers
  import opened Text
  import opened Patterns

  /** The subdomain labels probed, in the order they are reported. */
  const Labels: seq<string> := ["www", "api", "blog", "mail", "dev", "app", "test", "cdn"]

  /** What `\.?([^\s]+)` captures right after `/cek *`: a leading dot is
      skipped when a non-white-space character follows it (otherwise the
      optional dot gives way and the dot itself is captured), and the capture
      runs up to the next white space. */
  function CekTail(rest: string): (r: Option<string>)
    ensures r.Some? <==> rest != [] && !IsSpace(rest[0])
    ensures r.Some? ==> |r.value| >= 1 && NoSpace(r.value)
    ensures r.Some? ==>
      var from := DotSkipped(rest);
      && from + |r.value| <= |rest| && r.value == rest[from..from + |r.value|]
      && (from + |r.value| == |rest| || IsSpace(rest[from + |r.value|]))
  {
    if |rest| >= 2 && rest[0] == '.' && !IsSpace(rest[1]) then Some(Word(rest[1..]))
    else if rest != [] && !IsSpace(rest[0]) then Some(Word(rest))
    else None
  }

  /** Where the capture starts: after a leading dot that a non-white-space
      character follows, else at the start. */
  function DotSkipped(rest: string): nat {
    if |rest| >= 2 && rest[0] == '.' && !IsSpace(rest[1]) then 1 else 0
  }

  /** What `/\/cek \*\.?([^\s]+)/` captures. */
  function CekArg(text: string): Option<string> {
    Exec(text, "/cek *", CekTail)
  }

  /** The captured pattern is never empty and holds no white space. */
  lemma CekArgNoSpace(text: string)
    ensures CekArg(text).Some? ==> |CekArg(text).value| >= 1 && NoSpace(CekArg(text).value)
  {
  }

  /** So the `trim` the handler applies to it changes nothing. */
  lemma CekArgTrimmed(text: string)
    ensures CekArg(text).Some? ==> Trim(CekArg(text).value) == CekArg(text).value
  {
    var captured := CekArg(text);
    if captured.Some? {
      CekArgNoSpace(text);
      TrimNoSpace(captured.value);
    }
  }

  /** `label.pattern` for each label, in order. */
  function Qualify(labels: seq<string>, pattern: string): (r: seq<string>)
    ensures |r| == |labels|
    ensures forall i :: 0 <= i < |r| ==> r[i] == labels[i] + "." + pattern
  {
    if labels == [] then [] else [labels[0] + "." + pattern] + Qualify(labels[1..], pattern)
  }

  /** The names probed for a pattern. */
  function Candidates(pattern: string): seq<string> {
    Qualify(Labels, pattern)
  }

  /** Whatever the pattern, the probe names are eight distinct names, each its
      label, a dot and the pattern, in the fixed label order. */
  lemma CandidatesFixed(pattern: string)
    ensures |Candidates(pattern)| == 8
    ensures forall i :: 0 <= i < 8 ==> Candidates(pattern)[i] == Labels[i] + "." + pattern
    ensures forall i, j :: 0 <= i < j < 8 ==> Candidates(pattern)[i] != Candidates(pattern)[j]
  {
    var c := Candidates(pattern);
    forall i, j | 0 <= i < j < 8
      ensures c[i] != c[j]
    {
      LabelsDiffer(i, j);
      if c[i] == c[j] {
        SuffixCancels(Labels[i] + ".", Labels[j] + ".", pattern);
        SuffixCancels(Labels[i], Labels[j], ".");
      }
    }
  }

  lemma LabelsDiffer(i: int, j: int)
    requires 0 <= i < j < |Labels|
    ensures Labels[i] != Labels[j]
  {
  }

  lemma SuffixCancels(a: string, b: string, s: string)
    requires a + s == b + s
    ensures a == b
  {
    assert |a| == |b|;
    assert a == (a + s)[..|a|];
    assert b == (b + s)[..|b|];
  }

  /** One reported line: the name and its addresses, or the name and a failure. */
  datatype Probe = Resolved(fqdn: string, addresses: seq<string>) | Unresolved(fqdn: string)

  /** The line for `fqdn`, given what resolving it gave. */
  function ProbeOf(fqdn: string, outcome: Option<seq<string>>): (p: Probe)
    ensures p.fqdn == fqdn
    ensures p.Resolved? <==> outcome.Some?
    ensures p.Resolved? ==> p.addresses == outcome.value
  {
    match outcome
    case Some(addresses) => Resolved(fqdn, addresses)
    case None => Unresolved(fqdn)
  }

  /** The report loop of `/cek`: one line per candidate name, in the fixed
      order, whatever `resolve` reports for each. */
  method Report(pattern: string, resolve: string -> Option<seq<string>>) returns (lines: seq<Probe>)
    ensures |lines| == |Labels|
    ensures forall i :: 0 <= i < |Labels| ==> lines[i].fqdn == Labels[i] + "." + pattern
    ensures forall i :: 0 <= i < |Labels| ==> lines[i] == ProbeOf(Candidates(pattern)[i], resolve(Candidates(pattern)[i]))
  {
    lines := [];
    for k := 0 to |Labels|
      invariant |lines| == k
      invariant forall i :: 0 <= i < k ==> lines[i] == ProbeOf(Labels[i] + "." + pattern, resolve(Labels[i] + "." + pattern))
    {
      var fqdn := Labels[k] + "." + pattern;
      var outcome := resolve(fqdn);
      if outcome.Some? {
        lines := lines + [Resolved(fqdn, outcome.value)];
      } else {
        lines := lines + [Unresolved(fqdn)];
      }
    }
    CandidatesFixed(pattern);
  }

  /** The `/cek` handler: no report when the pattern does not match, otherwise
      the report for the captured domain pattern (its `trim` changes nothing,
      since the capture holds no white space). */
  method Cek(text: string, resolve: string -> Option<seq<string>>) returns (report: Option<seq<Probe>>)
    ensures report.None? <==> CekArg(text).None?
    ensures report.Some? ==> |report.value| == |Labels|
    ensures report.Some? ==> forall i :: 0 <= i < |Labels| ==>
      report.value[i].fqdn == Labels[i] + "." + CekArg(text).value
    ensures report.Some? ==> forall i :: 0 <= i < |Labels| ==>
      report.value[i] == ProbeOf(Candidates(CekArg(text).value)[i], resolve(Candidates(CekArg(text).value)[i]))
  {
    var captured := CekArg(text);
    if captured.None? {
      return None;
    }
    CekArgTrimmed(text);
    var lines := Report(Trim(captured.value), resolve);
    report := Some(lines);
  }

  /** `/cek *.<domain>` probes subdomains of `<domain>`: the star and the dot
      are dropped and the capture stops at white space. */
  lemma CekStarDot(domain: string, after: string)
    requires |domain| >= 1 && NoSpace(domain)
    requires after == [] || IsSpace(after[0])
    ensures CekArg("/cek *." + domain + after) == Some(domain)
  {
    var rest := "." + domain + after;
    var text := "/cek *." + domain + after;
    assert text == "/cek *" + rest;
    CekTailOfJoin(".", domain, after);
    assert CekTail(rest) == Some(domain);
    ExecAtStart("/cek *", rest, CekTail);
    assert CekArg(text) == Some(domain);
  }

  /** `/cek *<domain>` without the dot works too, for a domain that does not
      itself start with a dot. */
  lemma CekStar(domain: string, after: string)
    requires |domain| >= 1 && NoSpace(domain) && domain[0] != '.'
    requires after == [] || IsSpace(after[0])
    ensures CekArg("/cek *" + domain + after) == Some(domain)
  {
    var rest := domain + after;
    var text := "/cek *" + domain + after;
    assert text == "/cek *" + rest;
    CekTailOfJoin("", domain, after);
    assert "" + domain + after == rest;
    assert CekTail(rest) == Some(domain);
    ExecAtStart("/cek *", rest, CekTail);
    assert CekArg(text) == Some(domain);
  }

  lemma CekTailOfJoin(dot: string, domain: string, after: string)
    requires |domain| >= 1 && NoSpace(domain)
    requires dot == "." || (dot == "" && domain[0] != '.')
    requires after == [] || IsSpace(after[0])
    ensures CekTail(dot + domain + after) == Some(domain)
  {
    var rest := dot + domain + after;
    assert rest[|dot|..] == domain + after;
    assert rest[|dot|] == domain[0];
    WordOfJoin(domain, after);
  }

  /** A lone dot after the star, at the end of the text or before white space,
      is captured itself: the optional dot gives way so that the capture can
      match, and `/cek *. foo` probes `www..` and so on. */
  lemma CekLoneDot(after: string)
    requires after == [] || IsSpace(after[0])
    ensures CekArg("/cek *." + after) == Some(".")
  {
    var rest := "." + after;
    assert !IsSpace('.') && NoSpace(".");
    WordOfJoin(".", after);
    assert DotSkipped(rest) == 0;
    assert CekTail(rest) == Some(".");
    ExecAtStart("/cek *", rest, CekTail);
    assert "/cek *." + after == "/cek *" + rest;
  }
}

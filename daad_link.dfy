/**
 * The recognizer for DAAD course links (DAAD_REGEX in the summarize route):
 *
 *   ^https://www2.daad.de/deutschland/studienangebote/international-programmes/en/detail/(\d+)/?(#.*)?$
 *
 * read with ECMAScript regular-expression semantics and no flags: the match
 * is case-sensitive, `\d` is an ASCII digit, `$` matches only at the very end
 * of the input, and `.` matches any character except a LineTerminator.
 *
 * IsDaadLink compares the literal part of the pattern as a whole and runs a
 * hand-written deterministic automaton over what follows it. Compose builds
 * every string the pattern describes from its parts (LinkParts); the lemmas
 * show that the recognizer accepts exactly those strings, and Decompose
 * recovers the parts of an accepted one.
 */
module DaadLink {
  import opened Wrappers
  import opened JsString

  /** The catalogue's English pages. */
  const CatalogueBase: string := "https://www2.daad.de/deutschland/studienangebote/international-programmes/en/"

  /** Everything the pattern fixes before the numeric course id. */
  const DetailPrefix: string := CatalogueBase + "detail/"

  /** `\d` without the `u` flag: 0-9 only. */
  predicate IsAsciiDigit(c: char) {
    '0' <= c <= '9'
  }

  predicate AllDigits(s: string) {
    forall i :: 0 <= i < |s| ==> IsAsciiDigit(s[i])
  }

  /** What `.*` can consume without the `s` flag. */
  predicate NoLineTerminator(s: string) {
    forall i :: 0 <= i < |s| ==> !IsLineTerminator(s[i])
  }

  // ------------------------------------------------------------ the automaton

  /**
   * The states of the automaton for `(\d+)\/?(#.*)?$`. FirstDigit: nothing
   * read yet, a digit is required. Id: one or more digits read. AfterSlash:
   * the optional `/` read. Fragment: `#` and what follows it read.
   */
  datatype MatchState = FirstDigit | Id | AfterSlash | Fragment

  /** The states in which `$` can match. */
  predicate Accepting(st: MatchState) {
    st.Id? || st.AfterSlash? || st.Fragment?
  }

  /** One character of input; None means no match is possible any more. */
  function Step(st: MatchState, c: char): Option<MatchState> {
    match st
    case FirstDigit => if IsAsciiDigit(c) then Some(Id) else None
    case Id =>
      if IsAsciiDigit(c) then Some(Id)
      else if c == '/' then Some(AfterSlash)
      else if c == '#' then Some(Fragment)
      else None
    case AfterSlash => if c == '#' then Some(Fragment) else None
    case Fragment => if IsLineTerminator(c) then None else Some(Fragment)
  }

  /** Runs the automaton from `st` over all of `s`. */
  function Run(st: MatchState, s: string): bool
    decreases |s|
  {
    if s == [] then Accepting(st)
    else
      match Step(st, s[0])
      case None => false
      case Some(next) => Run(next, s[1..])
  }

  /** `DAAD_REGEX.test(s)`: the literal part must open the string, and the automaton must accept the rest. */
  predicate IsDaadLink(s: string) {
    DetailPrefix <= s && Run(FirstDigit, s[|DetailPrefix|..])
  }

  // ------------------------------------------------------ what the pattern means

  /** The pieces a matching link is made of: `(\d+)`, `\/?` and `(#.*)?` without its `#`. */
  datatype LinkParts = LinkParts(id: string, slash: bool, fragment: Option<string>)

  predicate WellFormed(p: LinkParts) {
    |p.id| > 0 && AllDigits(p.id) &&
    (p.fragment.Some? ==> NoLineTerminator(p.fragment.value))
  }

  function SlashText(slash: bool): string {
    if slash then "/" else ""
  }

  function FragmentText(fragment: Option<string>): string {
    match fragment
    case None => ""
    case Some(f) => "#" + f
  }

  /** What the parts spell after the literal part of the pattern. */
  function Tail(p: LinkParts): string {
    p.id + SlashText(p.slash) + FragmentText(p.fragment)
  }

  /** The link the pattern describes for the given parts. */
  function Compose(p: LinkParts): string {
    DetailPrefix + Tail(p)
  }

  /** One more leading digit in the id is one more leading character in the tail. */
  lemma TailCons(c: char, p: LinkParts)
    ensures Tail(p.(id := [c] + p.id)) == [c] + Tail(p)
  {
    var rest := SlashText(p.slash) + FragmentText(p.fragment);
    assert Tail(p.(id := [c] + p.id)) == ([c] + p.id) + rest;
    assert Tail(p) == p.id + rest;
  }

  // ------------------------------------------------------------- completeness

  lemma {:induction false} RunDigits(ds: string, rest: string)
    requires AllDigits(ds)
    ensures Run(Id, ds + rest) == Run(Id, rest)
    decreases |ds|
  {
    if ds == [] {
      assert ds + rest == rest;
    } else {
      assert (ds + rest)[0] == ds[0];
      assert (ds + rest)[1..] == ds[1..] + rest;
      RunDigits(ds[1..], rest);
    }
  }

  lemma {:induction false} RunFragment(f: string)
    requires NoLineTerminator(f)
    ensures Run(Fragment, f)
    decreases |f|
  {
    if f != [] {
      RunFragment(f[1..]);
    }
  }

  /** What follows the digits: the optional slash and the optional fragment are accepted from Id. */
  lemma TailAccepted(slash: bool, fragment: Option<string>)
    requires fragment.Some? ==> NoLineTerminator(fragment.value)
    ensures Run(Id, SlashText(slash) + FragmentText(fragment))
  {
    var frag := FragmentText(fragment);
    assert Run(AfterSlash, frag) && Run(Id, frag) by {
      if fragment.Some? {
        assert frag[0] == '#' && frag[1..] == fragment.value;
        RunFragment(fragment.value);
      }
    }
    if slash {
      var t := SlashText(slash) + frag;
      assert t[0] == '/' && t[1..] == frag;
    } else {
      assert SlashText(slash) + frag == frag;
    }
  }

  /** The automaton accepts the tail of well-formed parts from its start state. */
  lemma TailRuns(p: LinkParts)
    requires WellFormed(p)
    ensures Run(FirstDigit, Tail(p))
  {
    var q := p.(id := p.id[1..]);
    assert [p.id[0]] + p.id[1..] == p.id;
    TailCons(p.id[0], q);
    assert Tail(p)[1..] == p.id[1..] + (SlashText(p.slash) + FragmentText(p.fragment));
    assert AllDigits(p.id[1..]);
    RunDigits(p.id[1..], SlashText(p.slash) + FragmentText(p.fragment));
    TailAccepted(p.slash, p.fragment);
  }

  /** Every string the pattern describes is accepted. */
  lemma ComposeAccepted(p: LinkParts)
    requires WellFormed(p)
    ensures IsDaadLink(Compose(p))
  {
    var s := Compose(p);
    assert s[..|DetailPrefix|] == DetailPrefix && s[|DetailPrefix|..] == Tail(p);
    TailRuns(p);
  }

  // ----------------------------------------------------------------- soundness

  lemma {:induction false} FragmentSound(f: string)
    requires Run(Fragment, f)
    ensures NoLineTerminator(f)
    decreases |f|
  {
    if f != [] {
      FragmentSound(f[1..]);
      assert forall i :: 1 <= i < |f| ==> f[i] == f[1..][i - 1];
    }
  }

  /**
   * Splits what Id accepts into the remaining digits (possibly none), the
   * optional slash and the optional fragment.
   */
  function SplitId(s: string): (r: LinkParts)
    requires Run(Id, s)
    ensures AllDigits(r.id)
    ensures r.fragment.Some? ==> NoLineTerminator(r.fragment.value)
    ensures Tail(r) == s
    decreases |s|
  {
    if s == [] then LinkParts("", false, None)
    else if IsAsciiDigit(s[0]) then
      var r := SplitId(s[1..]);
      TailCons(s[0], r);
      assert [s[0]] + s[1..] == s;
      r.(id := [s[0]] + r.id)
    else if s[0] == '/' then
      var f := s[1..];
      if f == [] then
        assert s == "/";
        LinkParts("", true, None)
      else
        assert Run(AfterSlash, f);
        assert f[0] == '#' && Run(Fragment, f[1..]);
        FragmentSound(f[1..]);
        assert s == "/" + ("#" + f[1..]);
        LinkParts("", true, Some(f[1..]))
    else
      FragmentSound(s[1..]);
      assert s == "#" + s[1..];
      LinkParts("", false, Some(s[1..]))
  }

  /** Splits an accepted link into its parts. */
  function Decompose(s: string): (p: LinkParts)
    requires IsDaadLink(s)
    ensures WellFormed(p) && Compose(p) == s
  {
    var rest := s[|DetailPrefix|..];
    assert s == DetailPrefix + rest;
    assert rest != [] && IsAsciiDigit(rest[0]) && Run(Id, rest[1..]);
    var r := SplitId(rest[1..]);
    TailCons(rest[0], r);
    assert [rest[0]] + rest[1..] == rest;
    r.(id := [rest[0]] + r.id)
  }

  /** The recognizer accepts exactly the strings the pattern describes. */
  lemma IsDaadLinkIff(s: string)
    ensures IsDaadLink(s) <==> exists p :: WellFormed(p) && Compose(p) == s
  {
    if IsDaadLink(s) {
      var p := Decompose(s);
      assert WellFormed(p) && Compose(p) == s;
    }
    forall p | WellFormed(p) && Compose(p) == s
      ensures IsDaadLink(s)
    {
      ComposeAccepted(p);
    }
  }

  // ---------------------------------------------------------------- uniqueness

  /** With no digits left, SplitId reads the slash and the fragment back. */
  lemma SplitTailOf(slash: bool, fragment: Option<string>)
    requires fragment.Some? ==> NoLineTerminator(fragment.value)
    ensures Run(Id, SlashText(slash) + FragmentText(fragment))
    ensures SplitId(SlashText(slash) + FragmentText(fragment)) == LinkParts("", slash, fragment)
  {
    TailAccepted(slash, fragment);
    var tail := SlashText(slash) + FragmentText(fragment);
    match fragment
    case None =>
      if slash {
        assert tail == "/";
      } else {
        assert tail == "";
      }
    case Some(f) =>
      if slash {
        assert tail[0] == '/' && tail[1..] == "#" + f && (tail[1..])[1..] == f;
      } else {
        assert tail[0] == '#' && tail[1..] == f;
      }
  }

  /** SplitId recovers the digits, the slash and the fragment it is given. */
  lemma {:induction false} SplitIdOf(p: LinkParts)
    requires AllDigits(p.id)
    requires p.fragment.Some? ==> NoLineTerminator(p.fragment.value)
    ensures Run(Id, Tail(p))
    ensures SplitId(Tail(p)) == p
    decreases |p.id|
  {
    if p.id == [] {
      assert Tail(p) == SlashText(p.slash) + FragmentText(p.fragment);
      SplitTailOf(p.slash, p.fragment);
    } else {
      var q := p.(id := p.id[1..]);
      assert [p.id[0]] + p.id[1..] == p.id;
      TailCons(p.id[0], q);
      SplitIdOf(q);
      var s := Tail(p);
      assert s[0] == p.id[0] && s[1..] == Tail(q);
      assert SplitId(s) == q.(id := [s[0]] + q.id);
    }
  }

  /** Decompose inverts Compose. */
  lemma DecomposeCompose(p: LinkParts)
    requires WellFormed(p)
    ensures IsDaadLink(Compose(p)) && Decompose(Compose(p)) == p
  {
    ComposeAccepted(p);
    var s := Compose(p);
    var q := p.(id := p.id[1..]);
    assert [p.id[0]] + p.id[1..] == p.id;
    TailCons(p.id[0], q);
    assert s[|DetailPrefix|..] == Tail(p);
    assert Tail(p)[1..] == Tail(q);
    SplitIdOf(q);
  }

  /** Each accepted link is made of exactly one choice of parts. */
  lemma ComposeInjective(p: LinkParts, q: LinkParts)
    requires WellFormed(p) && WellFormed(q) && Compose(p) == Compose(q)
    ensures p == q
  {
    DecomposeCompose(p);
    DecomposeCompose(q);
  }

  // ------------------------------------------------------------------ examples

  /** A link with the course id, a trailing slash and a tab fragment is accepted. */
  lemma CourseLinkWithFragmentAccepted()
    ensures IsDaadLink(DetailPrefix + "8357/#tab_overview")
  {
    var p := LinkParts("8357", true, Some("tab_overview"));
    assert Tail(p) == "8357/#tab_overview";
    ComposeAccepted(p);
  }

  /** A course-overview page (no `/detail/` segment) is rejected. */
  lemma OverviewLinkRejected()
    ensures !IsDaadLink(CatalogueBase + "overview/8357")
  {
    var s := CatalogueBase + "overview/8357";
    var n := |CatalogueBase|;
    assert s[n] == 'o' && DetailPrefix[n] == 'd';
  }

  /** The course id must hold at least one digit. */
  lemma MissingIdRejected(tail: string)
    requires tail == [] || !IsAsciiDigit(tail[0])
    ensures !IsDaadLink(DetailPrefix + tail)
  {
    assert (DetailPrefix + tail)[|DetailPrefix|..] == tail;
  }

  /** A line terminator in the fragment stops the automaton. */
  lemma {:induction false} FragmentBreak(f: string, i: nat)
    requires i < |f| && IsLineTerminator(f[i])
    ensures !Run(Fragment, f)
    decreases i
  {
    if 0 < i {
      assert f[1..][i - 1] == f[i];
      FragmentBreak(f[1..], i - 1);
    }
  }

  /** A line break inside the fragment is not matched by `.*`, and `$` does not match before it. */
  lemma LineBreakInFragmentRejected(id: string, before: string, after: string)
    requires |id| > 0 && AllDigits(id)
    ensures !IsDaadLink(DetailPrefix + id + "#" + before + "\n" + after)
  {
    var f := before + "\n" + after;
    var s := DetailPrefix + id + "#" + before + "\n" + after;
    var rest := id + ("#" + f);
    assert s == DetailPrefix + rest;
    assert s[|DetailPrefix|..] == rest;
    assert rest[0] == id[0] && rest[1..] == id[1..] + ("#" + f);
    assert AllDigits(id[1..]);
    RunDigits(id[1..], "#" + f);
    assert ("#" + f)[0] == '#' && ("#" + f)[1..] == f;
    assert f[|before|] == '\n';
    FragmentBreak(f, |before|);
  }
}

/**
 * EchoNet (src/filtration/echonet.py): the collapse-resistance filter on
 * echoes and the scar an echo collapses into.  The clock reading behind the
 * scar's id and creation time is supplied by the caller.
 */
module EchoNets {
  import opened Wrappers
  import opened Records
  import opened Strings
  import ScarLedger

  const MinClaimLength: nat := 10
  const MaxScarWeight: real := 100.0
  const WeightPerChar: real := 1.5

  /** The verdict of the filter, with its tags and reason. */
  datatype CollapseResult = CollapseResult(passed: bool, tags: seq<string>, reason: string)

  predicate TooShort(content: string)
  {
    |Strip(content)| < MinClaimLength
  }

  predicate Forbidden(content: string)
  {
    StartsWith(Lower(Strip(content)), "ban ")
  }

  /**
   * `filter_claim`: too short after stripping fails first; then a "ban "
   * prefix in any letter case fails; everything else passes.
   */
  function FilterClaim(echo: Echo): (r: CollapseResult)
    ensures r.passed <==> !TooShort(echo.content) && !Forbidden(echo.content)
    ensures r.passed <==> r.tags == ["base_pass"]
    ensures r.tags == ["too_short"] <==> TooShort(echo.content)
    ensures r.tags == ["forbidden"] <==> !TooShort(echo.content) && Forbidden(echo.content)
    ensures |r.tags| == 1
  {
    var content := Strip(echo.content);
    if |content| < MinClaimLength then CollapseResult(false, ["too_short"], "Input too short")
    else if StartsWith(Lower(content), "ban ") then CollapseResult(false, ["forbidden"], "Forbidden command")
    else CollapseResult(true, ["base_pass"], "")
  }

  /** Surrounding whitespace never changes the filter's verdict. */
  lemma FilterIgnoresPadding(echo: Echo)
    ensures FilterClaim(echo.(content := Strip(echo.content))) == FilterClaim(echo)
  {
    var padded := echo.content;
    var stripped := echo.(content := Strip(padded));
    StripIdempotent(padded);
    assert Strip(stripped.content) == Strip(padded);
  }

  /** A short echo is reported too short even when it is also a ban command. */
  lemma ShortBeatsForbidden()
    ensures FilterClaim(Echo("e", "ban x", "user", 1.0, 0, None)).tags == ["too_short"]
  {
    assert Strip("ban x") == "ban x" by {
      TrimLeftNoop("ban x");
      TrimRightNoop("ban x");
    }
  }

  /** The ban rule ignores letter case: an unpadded claim opening with "BAN " is forbidden. */
  lemma UpperCaseBanForbidden(echo: Echo)
    requires |echo.content| >= MinClaimLength && echo.content[..4] == "BAN "
    requires !IsSpace(echo.content[|echo.content| - 1])
    ensures FilterClaim(echo).tags == ["forbidden"]
  {
    var c := echo.content;
    assert c[0] == 'B';
    TrimLeftNoop(c);
    TrimRightNoop(c);
    var l := Lower(c);
    assert l[0] == LowerChar(c[0]) == 'b' && l[1] == LowerChar(c[1]) == 'a';
    assert l[2] == LowerChar(c[2]) == 'n' && l[3] == LowerChar(c[3]) == ' ';
    assert l[..4] == "ban ";
  }

  /** `min(len(content) * 1.5, 100.0)`. */
  function Weight(content: string): (w: real)
    ensures 0.0 <= w <= MaxScarWeight
    ensures w == MaxScarWeight <==> |content| >= 67
    ensures |content| < 67 ==> w == |content| as real * WeightPerChar
  {
    Min(|content| as real * WeightPerChar, MaxScarWeight)
  }

  /** A longer echo never makes a lighter scar. */
  lemma WeightMonotone(a: string, b: string)
    requires |a| <= |b|
    ensures Weight(a) <= Weight(b)
  {
  }

  /** `[doctrine_link] if doctrine_link else []`: an empty link counts as none. */
  function LinkedFrom(link: Option<string>): (r: seq<string>)
    ensures r == [] <==> link.None? || link.value == ""
    ensures r != [] ==> r == [link.value]
  {
    if link.Some? && link.value != "" then [link.value] else []
  }

  /**
   * `collapse_test`: an active scar of unknown type that remembers the echo
   * as its origin and its only proximity, weighted by the echo's length.
   */
  function CollapseTest(echo: Echo, stamp: string, now: int): (s: Scar)
    ensures s.id == "Δ" + stamp && s.origin == echo.id && s.name == "Scar from " + echo.id
    ensures s.weight == Weight(echo.content) && s.weight <= MaxScarWeight
    ensures s.linkedDoctrines == LinkedFrom(echo.doctrineLink)
    ensures s.echoProximity == [echo.id]
    ensures ScarLedger.IsActive(s) && s.scarType == "unknown" && s.createdAt == now
    ensures s.reflexes == [] && s.tcaTags == [] && !s.isSeed && s.lastAccessed.None?
  {
    Scar(
      id := "Δ" + stamp,
      name := "Scar from " + echo.id,
      origin := echo.id,
      scarType := "unknown",
      weight := Weight(echo.content),
      createdAt := now,
      decayState := ScarLedger.ActiveState,
      linkedDoctrines := LinkedFrom(echo.doctrineLink),
      lastAccessed := None,
      description := "Scar auto-generated from echo input.",
      echoProximity := [echo.id],
      reflexes := [],
      tcaTags := [],
      isSeed := false)
  }
}

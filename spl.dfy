/**
 * The Symbolic Perception Layer (src/perception/spl.py): turns raw input into
 * an echo and guesses its intent.  The clock reading behind the echo's id and
 * creation time is supplied by the caller.
 */
module Perception {
  import opened Wrappers
  import opened Records
  import opened Strings
  import EchoNets

  const DefaultResonance: real := 1.0

  /** `process_input`: the stripped input, wrapped with full resonance. */
  function ProcessInput(rawInput: string, source: string, doctrineLink: Option<string>, stamp: string, now: int): (e: Echo)
    ensures e.content == Strip(rawInput) && |e.content| <= |rawInput|
    ensures e.content == [] || (!IsSpace(e.content[0]) && !IsSpace(e.content[|e.content| - 1]))
    ensures e.resonanceScore == DefaultResonance
    ensures e.source == source && e.doctrineLink == doctrineLink
    ensures e.id == "Echo-" + stamp && e.createdAt == now
  {
    Echo("Echo-" + stamp, Strip(rawInput), source, DefaultResonance, now, doctrineLink)
  }

  /** Perceiving an echo's own content again gives the same echo. */
  lemma ProcessInputIdempotent(rawInput: string, source: string, doctrineLink: Option<string>, stamp: string, now: int)
    ensures var e := ProcessInput(rawInput, source, doctrineLink, stamp, now);
            ProcessInput(e.content, source, doctrineLink, stamp, now) == e
  {
    StripIdempotent(rawInput);
  }

  /** The filter judges a perceived echo by the stripped input alone. */
  lemma PerceivedFilter(rawInput: string, source: string, doctrineLink: Option<string>, stamp: string, now: int)
    ensures var e := ProcessInput(rawInput, source, doctrineLink, stamp, now);
            EchoNets.FilterClaim(e).passed <==> |Strip(rawInput)| >= 10 && !StartsWith(Lower(Strip(rawInput)), "ban ")
  {
    StripIdempotent(rawInput);
  }

  datatype Intent = Question | Command | Claim

  /** The intent's name as the source reports it. */
  function IntentName(i: Intent): (s: string)
    ensures s in {"question", "command", "claim"}
  {
    match i
    case Question => "question"
    case Command => "command"
    case Claim => "claim"
  }

  /**
   * `classify_intent`: a trailing question mark wins over everything; then a
   * "do " or "please " opening in any letter case is a command; the rest are claims.
   */
  function ClassifyIntent(echo: Echo): (r: Intent)
    ensures r == Question <==> EndsWith(echo.content, "?")
    ensures r == Command <==>
              !EndsWith(echo.content, "?") && (StartsWith(Lower(echo.content), "do ") || StartsWith(Lower(echo.content), "please "))
  {
    var content := Lower(echo.content);
    LowerKeepsQuestionMark(echo.content);
    if EndsWith(content, "?") then Question
    else if StartsWith(content, "do ") || StartsWith(content, "please ") then Command
    else Claim
  }

  /** Lowercasing never creates or removes a trailing question mark. */
  lemma LowerKeepsQuestionMark(s: string)
    ensures EndsWith(Lower(s), "?") <==> EndsWith(s, "?")
  {
    if s != [] {
      var l := Lower(s);
      assert l[|s| - 1] == LowerChar(s[|s| - 1]);
      assert l[|l| - 1..] == [l[|s| - 1]];
      assert s[|s| - 1..] == [s[|s| - 1]];
    }
  }
}

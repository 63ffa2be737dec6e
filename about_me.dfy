/** The profile card: a typed-out quote that, once complete, unlocks the
    stats, skills and status sections, and a signature that now and then
    glitches into random symbols and is then restored. Each timer callback
    is one method; the timers themselves are left to the caller. */
module AboutMe {
  import opened Oracle

  const Quote: string :=
    "I am Light \U{2014} code is my weapon, the network my battlefield.\n" +
    "I don't scan. I haunt. I don't hack. I disappear.\n" +
    "\n" +
    "Every tool I build leaves no trace \U{2014} only questions."

  const Signature: string := "\U{2014} Neok1ra"

  /** The symbols a glitch may put in place of a signature character. */
  const GlitchChars: string := "!@#$%^&*()_+-=[]{}|;:,.<>?/~`"

  /** Share of glitch-timer ticks that glitch the signature. */
  const GlitchChance: real := 0.1

  /** Share of characters a glitch replaces. */
  const ReplaceChance: real := 0.3

  /** Share of typing ticks that play the typing sound. */
  const TypingSoundChance: real := 0.7

  /** The two draws a glitch makes for one character: whether to replace it,
      and which symbol to use. */
  datatype GlitchRoll = GlitchRoll(rReplace: real, rSymbol: real)

  predicate RollsOk(rolls: seq<GlitchRoll>) {
    forall i :: 0 <= i < |rolls| ==> Unit(rolls[i].rSymbol)
  }

  /** The glitched version of one character. Spaces are never replaced. */
  function GlitchChar(c: char, roll: GlitchRoll): (g: char)
    requires Unit(roll.rSymbol)
    ensures c == ' ' ==> g == ' '
    ensures g == c || g in GlitchChars
    ensures roll.rReplace >= ReplaceChance ==> g == c
  {
    if roll.rReplace < ReplaceChance && c != ' ' then GlitchChars[Pick(roll.rSymbol, |GlitchChars|)]
    else c
  }

  /** What a piece of text may glitch into: the same length, every space kept,
      and every other position either the original character or a symbol. */
  predicate IsGlitchOf(g: string, s: string) {
    && |g| == |s|
    && (forall i :: 0 <= i < |s| && s[i] == ' ' ==> g[i] == ' ')
    && (forall i :: 0 <= i < |s| ==> g[i] == s[i] || g[i] in GlitchChars)
  }

  /** The glitched text, character `i` decided by `rolls[i]`. */
  function Glitched(s: string, rolls: seq<GlitchRoll>): (g: string)
    requires |rolls| >= |s| && RollsOk(rolls)
    ensures IsGlitchOf(g, s)
  {
    if s == [] then []
    else Glitched(s[..|s| - 1], rolls) + [GlitchChar(s[|s| - 1], rolls[|s| - 1])]
  }

  /** With no replacement drawn, a glitch gives the text back unchanged. */
  lemma {:induction false} GlitchedWithoutReplacement(s: string, rolls: seq<GlitchRoll>)
    requires |rolls| >= |s| && RollsOk(rolls)
    requires forall i :: 0 <= i < |s| ==> rolls[i].rReplace >= ReplaceChance
    ensures Glitched(s, rolls) == s
  {
    if s != [] {
      GlitchedWithoutReplacement(s[..|s| - 1], rolls);
      assert s[..|s| - 1] + [s[|s| - 1]] == s;
    }
  }

  /** Each character is glitched by its own roll, whatever the others did. */
  lemma {:induction false} GlitchedAt(s: string, rolls: seq<GlitchRoll>, i: nat)
    requires |rolls| >= |s| && RollsOk(rolls)
    requires i < |s|
    ensures Glitched(s, rolls)[i] == GlitchChar(s[i], rolls[i])
  {
    if i < |s| - 1 {
      GlitchedAt(s[..|s| - 1], rolls, i);
    }
  }

  /** The glitch builder: grows the glitched string one character at a time. */
  method BuildGlitch(original: string, rolls: seq<GlitchRoll>) returns (glitched: string)
    requires |rolls| >= |original| && RollsOk(rolls)
    ensures glitched == Glitched(original, rolls)
    ensures IsGlitchOf(glitched, original)
  {
    glitched := "";
    for i := 0 to |original|
      invariant glitched == Glitched(original[..i], rolls)
    {
      assert original[..i + 1][..i] == original[..i];
      if rolls[i].rReplace < ReplaceChance && original[i] != ' ' {
        glitched := glitched + [GlitchChars[Pick(rolls[i].rSymbol, |GlitchChars|)]];
      } else {
        glitched := glitched + [original[i]];
      }
    }
    assert original[..|original|] == original;
  }

  /** The parts of the card below the quote. */
  datatype Section = SignatureLine | StatsGrid | SkillsMatrix | StatusBar

  class Card {
    var isVisible: bool
    var typedQuote: string
    var showStats: bool
    var glitchText: string
    /** The counter the typing interval keeps. */
    var index: nat
    /** The typing interval is running. */
    var typing: bool
    /** The timeout that shows the stats is scheduled and has not fired. */
    var statsPending: bool
    /** Restore timeouts scheduled by glitches and not yet fired. */
    var pendingRestores: nat

    /** The typed text is always the first `index` characters of the quote;
        nothing happens before the card is visible; the stats come only after
        the whole quote; the signature is always a glitch of the original and
        is the original whenever no restore is outstanding. */
    ghost predicate Valid()
      reads this
    {
      && index <= |Quote|
      && typedQuote == Quote[..index]
      && (!isVisible ==> index == 0 && !typing && !statsPending && !showStats)
      && (statsPending ==> index == |Quote| && !typing && !showStats)
      && (showStats ==> index == |Quote| && !typing)
      && (!showStats ==> glitchText == "" && pendingRestores == 0)
      && (showStats ==> IsGlitchOf(glitchText, Signature))
      && (showStats && pendingRestores == 0 ==> glitchText == Signature)
    }

    /** Ticks left before the typing interval stops. */
    ghost function TicksLeft(): nat
      reads this
      requires Valid()
    {
      if typing then |Quote| - index + 1 else 0
    }

    /** The first render, before any effect has run. */
    constructor ()
      ensures Valid()
      ensures !isVisible && typedQuote == "" && !showStats && glitchText == ""
      ensures !typing && !statsPending && pendingRestores == 0
    {
      isVisible, typedQuote, showStats, glitchText := false, "", false, "";
      index, typing, statsPending, pendingRestores := 0, false, false, 0;
    }

    /** The mount effect makes the card visible; that change starts the
        typing interval with its counter at 0. Setting the flag again does
        not restart it. */
    method Mount()
      requires Valid()
      modifies this
      ensures Valid()
      ensures isVisible
      ensures old(isVisible) ==> unchanged(this)
      ensures !old(isVisible) ==> index == 0 && typing && typedQuote == "" && !showStats
      ensures !old(isVisible) ==> !statsPending && glitchText == "" && pendingRestores == 0
    {
      if !isVisible {
        isVisible := true;
        index := 0;
        typing := true;
      }
    }

    /** One tick of the typing interval. While the quote is not complete it
        reveals one more character; then it stops the interval and schedules
        the stats. The typing sound plays when registered and drawn. */
    method TypingTick(soundRegistered: bool, rSound: real) returns (playedSound: bool)
      requires Valid()
      modifies this
      ensures Valid()
      ensures old(typing) ==> TicksLeft() < old(TicksLeft())
      ensures !old(typing) ==> unchanged(this) && !playedSound
      ensures old(typing) && old(index) < |Quote| ==>
        && index == old(index) + 1 && typedQuote == Quote[..old(index) + 1] && typing && !statsPending
        && playedSound == (soundRegistered && rSound < TypingSoundChance)
      ensures old(typing) && old(index) == |Quote| ==>
        && index == old(index) && typedQuote == Quote && !typing && statsPending && !playedSound
      ensures isVisible == old(isVisible) && showStats == old(showStats) && glitchText == old(glitchText)
      ensures pendingRestores == old(pendingRestores)
    {
      playedSound := false;
      if !typing {
        return;
      }
      if index < |Quote| {
        typedQuote := Quote[..index + 1];
        playedSound := soundRegistered && rSound < TypingSoundChance;
        index := index + 1;
      } else {
        typing := false;
        statsPending := true;
      }
    }

    /** The timeout scheduled when typing ends: show the stats; that change
        sets the signature to the original and starts the glitch interval. */
    method StatsTimeout()
      requires Valid()
      modifies this
      ensures Valid()
      ensures !old(statsPending) ==> unchanged(this)
      ensures old(statsPending) ==> showStats && !statsPending && glitchText == Signature && typedQuote == Quote
      ensures isVisible == old(isVisible) && index == old(index) && typing == old(typing)
      ensures pendingRestores == old(pendingRestores)
    {
      if statsPending {
        statsPending := false;
        showStats := true;
        glitchText := Signature;
      }
    }

    /** One tick of the glitch interval, which runs only once the stats are
        shown: with probability `GlitchChance` the signature is glitched and a
        restore is scheduled. */
    method GlitchTick(rGlitch: real, rolls: seq<GlitchRoll>)
      requires Valid()
      requires |rolls| >= |Signature| && RollsOk(rolls)
      modifies this
      ensures Valid()
      ensures old(showStats) && rGlitch < GlitchChance ==>
        glitchText == Glitched(Signature, rolls) && pendingRestores == old(pendingRestores) + 1
      ensures !(old(showStats) && rGlitch < GlitchChance) ==> unchanged(this)
      ensures isVisible == old(isVisible) && showStats == old(showStats) && typedQuote == old(typedQuote)
      ensures index == old(index) && typing == old(typing) && statsPending == old(statsPending)
    {
      if showStats && rGlitch < GlitchChance {
        var g := BuildGlitch(Signature, rolls);
        glitchText := g;
        pendingRestores := pendingRestores + 1;
      }
    }

    /** A restore timeout set by a glitch: the signature goes back to the
        original. */
    method RestoreTimeout()
      requires Valid()
      modifies this
      ensures Valid()
      ensures old(pendingRestores) > 0 ==> glitchText == Signature && pendingRestores == old(pendingRestores) - 1
      ensures old(pendingRestores) == 0 ==> unchanged(this)
      ensures isVisible == old(isVisible) && showStats == old(showStats) && typedQuote == old(typedQuote)
      ensures index == old(index) && typing == old(typing) && statsPending == old(statsPending)
    {
      if pendingRestores > 0 {
        glitchText := Signature;
        pendingRestores := pendingRestores - 1;
      }
    }

    /** The sections rendered below the quote. */
    function Sections(): (s: set<Section>)
      reads this
      ensures s == {} || s == {SignatureLine, StatsGrid, SkillsMatrix, StatusBar}
      ensures StatsGrid in s <==> showStats
    {
      if showStats then {SignatureLine, StatsGrid, SkillsMatrix, StatusBar} else {}
    }
  }

  /** A card shows any section below the quote only once the whole quote is
      typed, and then it shows all of them. */
  lemma SectionsNeedWholeQuote(c: Card)
    requires c.Valid()
    ensures c.Sections() != {} <==> c.showStats
    ensures c.Sections() != {} ==> c.typedQuote == Quote && c.Sections() == {SignatureLine, StatsGrid, SkillsMatrix, StatusBar}
  {
  }

  /** The typed text is a prefix of the quote, and it is empty until the card
      becomes visible. */
  lemma TypedIsPrefix(c: Card)
    requires c.Valid()
    ensures |c.typedQuote| <= |Quote| && c.typedQuote == Quote[..|c.typedQuote|]
    ensures !c.isVisible ==> c.typedQuote == ""
  {
  }
}

/** The pure helpers of the launcher: removing SGR colour codes, centring a line, the
    menu's key handling and the mapping from the chosen level to a difficulty. */
module Main {
  import opened Wrappers
  import opened JavaLang
  import Game

  const ESC: char := '\U{1B}'
  const ANSI_RESET: string := [ESC] + "[0m"
  const ANSI_GREEN: string := [ESC] + "[32m"
  const ANSI_YELLOW: string := [ESC] + "[33m"
  const ANSI_CYAN: string := [ESC] + "[36m"

  /** The characters the pattern's class `[;\d]` admits (`\d` is ASCII-only in Java). */
  predicate IsSgrParam(c: char) { c == ';' || '0' <= c <= '9' }

  /** `t` is one whole match of `ESC \[ [;\d]* m`. */
  predicate IsSgr(t: string)
    ensures IsSgr(t) ==> forall k :: 0 <= k < |t| - 1 ==> t[k] != 'm'
  {
    3 <= |t| && t[0] == ESC && t[1] == '[' && t[|t| - 1] == 'm'
    && forall k :: 2 <= k < |t| - 1 ==> IsSgrParam(t[k])
  }

  /** Length of the longest run of parameter characters that `s` starts with. */
  function ParamRun(s: string): (n: nat)
    ensures n <= |s|
    ensures forall k :: 0 <= k < n ==> IsSgrParam(s[k])
    ensures n == |s| || !IsSgrParam(s[n])
  {
    if s != [] && IsSgrParam(s[0]) then 1 + ParamRun(s[1..]) else 0
  }

  /** Length of the SGR sequence `s` starts with, or 0 when it starts with none. */
  function SgrLength(s: string): (n: nat)
    ensures n == 0 || (3 <= n <= |s| && IsSgr(s[..n]))
  {
    if 2 <= |s| && s[0] == ESC && s[1] == '[' then
      var p := ParamRun(s[2..]);
      if 2 + p < |s| && s[2 + p] == 'm' then 3 + p else 0
    else 0
  }

  /** The pattern can match at most one prefix of `s`, and `SgrLength` finds it: since
      `m` is not in the class, backtracking over `[;\d]*` never yields another match. */
  lemma SgrMatchUnique(s: string, j: nat)
    requires j <= |s| && IsSgr(s[..j])
    ensures SgrLength(s) == j
  {
    var t := s[..j];
    assert forall k :: 0 <= k < j - 3 ==> IsSgrParam(s[2..][k]) by {
      forall k | 0 <= k < j - 3 ensures IsSgrParam(s[2..][k]) { assert s[2..][k] == t[k + 2]; }
    }
    assert s[2..][j - 3] == t[j - 1];
  }

  /** `text.replaceAll("\033\\[[;\\d]*m", "")`: scans left to right, dropping each SGR
      sequence that starts where the scan stands and keeping every other character. */
  function StripAnsi(s: string): (r: string)
    ensures |r| <= |s|
    decreases |s|
  {
    if s == [] then []
    else if s[0] != ESC then [s[0]] + StripAnsi(s[1..])
    else
      var n := SgrLength(s);
      if n > 0 then StripAnsi(s[n..]) else [s[0]] + StripAnsi(s[1..])
  }

  predicate NoEsc(s: string) { forall k :: 0 <= k < |s| ==> s[k] != ESC }

  /** A character other than ESC never starts a sequence, so it is kept. */
  lemma StripAnsiKeepsChar(c: char, x: string)
    requires c != ESC
    ensures StripAnsi([c] + x) == [c] + StripAnsi(x)
  {
    var u := [c] + x;
    assert u[0] == c && u[1..] == x;
  }

  lemma NoEscTail(s: string)
    requires s != [] && NoEsc(s)
    ensures NoEsc(s[1..])
  {
    forall k | 0 <= k < |s| - 1 ensures s[1..][k] != ESC { assert s[1..][k] == s[k + 1]; }
  }

  /** Characters before the first ESC are kept as they are. */
  lemma {:induction false} StripAnsiKeepsEscFreePrefix(s: string, t: string)
    requires NoEsc(s)
    ensures StripAnsi(s + t) == s + StripAnsi(t)
    decreases |s|
  {
    if s == [] {
      assert s + t == t;
    } else {
      var c, x := s[0], s[1..];
      assert s + t == [c] + (x + t);
      StripAnsiKeepsChar(c, x + t);
      NoEscTail(s);
      StripAnsiKeepsEscFreePrefix(x, t);
      assert [c] + (x + StripAnsi(t)) == s + StripAnsi(t);
    }
  }

  /** A string without ESC is returned unchanged. */
  lemma StripAnsiWithoutEsc(s: string)
    requires NoEsc(s)
    ensures StripAnsi(s) == s
  {
    StripAnsiKeepsEscFreePrefix(s, []);
    assert s + [] == s;
  }

  /** A whole SGR sequence at the front is dropped. */
  lemma StripAnsiDropsLeadingSgr(t: string, s: string)
    requires IsSgr(t)
    ensures StripAnsi(t + s) == StripAnsi(s)
  {
    assert (t + s)[..|t|] == t;
    SgrMatchUnique(t + s, |t|);
    assert (t + s)[|t|..] == s;
  }

  /** The way the launcher colours a caption: the colour codes disappear and the caption
      itself is what is measured. */
  lemma StripAnsiColouredCaption(colour: string, caption: string)
    requires colour == ANSI_GREEN || colour == ANSI_YELLOW || colour == ANSI_CYAN
    requires NoEsc(caption)
    ensures StripAnsi(colour + caption + ANSI_RESET) == caption
  {
    assert IsSgr(colour);
    assert colour + caption + ANSI_RESET == colour + (caption + ANSI_RESET);
    StripAnsiDropsLeadingSgr(colour, caption + ANSI_RESET);
    StripAnsiKeepsEscFreePrefix(caption, ANSI_RESET);
    assert IsSgr(ANSI_RESET);
    assert ANSI_RESET + [] == ANSI_RESET;
    StripAnsiDropsLeadingSgr(ANSI_RESET, []);
  }

  /** Removing codes can bring a new code together, so stripping twice is not stripping
      once: "ESC ESC [ m [ m" strips to "ESC [ m", which strips to "". */
  lemma StripAnsiNotIdempotent()
    ensures var s := [ESC, ESC, '[', 'm', '[', 'm'];
      StripAnsi(s) == [ESC, '[', 'm'] && StripAnsi(StripAnsi(s)) == []
  {
    var s := [ESC, ESC, '[', 'm', '[', 'm'];
    assert SgrLength(s) == 0;
    assert s[1..] == [ESC, '[', 'm'] + ['[', 'm'];
    assert IsSgr([ESC, '[', 'm']);
    StripAnsiDropsLeadingSgr([ESC, '[', 'm'], ['[', 'm']);
    StripAnsiWithoutEsc(['[', 'm']);
    assert [ESC, '[', 'm'] + [] == [ESC, '[', 'm'];
    StripAnsiDropsLeadingSgr([ESC, '[', 'm'], []);
  }

  /** `centerText`: the text preceded by half the free width in spaces (none when the
      visible text is at least as wide as the console). Java truncates the quotient
      toward zero; because the padding is clamped at 0 it agrees with floor division. */
  function CenterText(text: string, consoleWidth: int): (r: string)
    ensures r == Spaces(Max(0, (consoleWidth - |StripAnsi(text)|) / 2)) + text
    ensures |r| >= |text| && r[|r| - |text|..] == text
  {
    var padding := JavaDiv(consoleWidth - |StripAnsi(text)|, 2);
    var padding := if padding < 0 then 0 else padding;
    Spaces(padding) + text
  }

  /** A text at least as wide as the console is printed as it is. */
  lemma CenterTextWide(text: string, consoleWidth: int)
    requires |StripAnsi(text)| >= consoleWidth
    ensures CenterText(text, consoleWidth) == text
  {
    assert Spaces(0) + text == text;
  }

  /** A narrower text is centred: what is visible is `pad` spaces followed by the
      visible text, and the width left on the right is `pad` or `pad + 1`. */
  lemma CenterTextCentred(text: string, consoleWidth: int)
    requires |StripAnsi(text)| <= consoleWidth
    ensures var pad := (consoleWidth - |StripAnsi(text)|) / 2;
      StripAnsi(CenterText(text, consoleWidth)) == Spaces(pad) + StripAnsi(text)
    ensures var pad := (consoleWidth - |StripAnsi(text)|) / 2;
      pad <= consoleWidth - (pad + |StripAnsi(text)|) <= pad + 1
  {
    var pad := (consoleWidth - |StripAnsi(text)|) / 2;
    CenterTextPadding(text, consoleWidth);
    StripAnsiAfterSpaces(text, pad);
    HalfSplits(consoleWidth - |StripAnsi(text)|);
  }

  lemma CenterTextPadding(text: string, consoleWidth: int)
    requires |StripAnsi(text)| <= consoleWidth
    ensures CenterText(text, consoleWidth) == Spaces((consoleWidth - |StripAnsi(text)|) / 2) + text
  {
    var free := consoleWidth - |StripAnsi(text)|;
    assert CenterText(text, consoleWidth) == Spaces(Max(0, free / 2)) + text;
    assert Max(0, free / 2) == free / 2;
  }

  lemma StripAnsiAfterSpaces(text: string, pad: nat)
    ensures StripAnsi(Spaces(pad) + text) == Spaces(pad) + StripAnsi(text)
  {
    SpacesHaveNoEsc(pad);
    StripAnsiKeepsEscFreePrefix(Spaces(pad), text);
  }

  /** Halving leaves nothing or one over. */
  lemma HalfSplits(x: nat)
    ensures x / 2 <= x - x / 2 <= x / 2 + 1
  {
  }

  lemma SpacesHaveNoEsc(n: nat)
    ensures NoEsc(Spaces(n))
  {
  }

  /** Number of entries in the level menu ("Facile", "Moyen", "Difficile"). */
  const LEVEL_COUNT: int := 3

  /** Values `System.in.read` returns for the keys the menu reacts to. */
  const KEY_LF: int := 10
  const KEY_CR: int := 13
  const KEY_UP_LOWER: int := 119
  const KEY_UP_UPPER: int := 87
  const KEY_DOWN_LOWER: int := 115
  const KEY_DOWN_UPPER: int := 83

  predicate IsEnter(key: int) { key == KEY_LF || key == KEY_CR }

  /** The menu's two local variables. */
  datatype Menu = Menu(selection: int, done: bool)

  /** One key of `displayLevelMenu`: Enter confirms; `w`/`W` moves up and `s`/`S` down,
      wrapping around; any other key changes nothing. */
  function MenuStep(selection: int, key: int): (m: Menu)
    ensures m.done <==> IsEnter(key)
    ensures 0 <= selection < LEVEL_COUNT ==> 0 <= m.selection < LEVEL_COUNT
  {
    if IsEnter(key) then Menu(selection, true)
    else if key == KEY_UP_LOWER || key == KEY_UP_UPPER then
      Menu(JavaRem(selection - 1 + LEVEL_COUNT, LEVEL_COUNT), false)
    else if key == KEY_DOWN_LOWER || key == KEY_DOWN_UPPER then
      Menu(JavaRem(selection + 1, LEVEL_COUNT), false)
    else Menu(selection, false)
  }

  /** Up selects the previous entry and down the next one, cyclically, so up then
      down (or down then up) comes back to where it started. */
  lemma MenuUpDownInverse(selection: int)
    requires 0 <= selection < LEVEL_COUNT
    ensures MenuStep(selection, KEY_UP_LOWER).selection == (selection + LEVEL_COUNT - 1) % LEVEL_COUNT
    ensures MenuStep(selection, KEY_DOWN_LOWER).selection == (selection + 1) % LEVEL_COUNT
    ensures MenuStep(selection, KEY_UP_UPPER).selection == (selection + LEVEL_COUNT - 1) % LEVEL_COUNT
    ensures MenuStep(selection, KEY_DOWN_UPPER).selection == (selection + 1) % LEVEL_COUNT
    ensures MenuStep(MenuStep(selection, KEY_UP_LOWER).selection, KEY_DOWN_LOWER).selection == selection
    ensures MenuStep(MenuStep(selection, KEY_DOWN_UPPER).selection, KEY_UP_UPPER).selection == selection
  {
    var up := JavaRem(selection - 1 + LEVEL_COUNT, LEVEL_COUNT);
    var down := JavaRem(selection + 1, LEVEL_COUNT);
    if selection == 0 {
      assert up == 2 && down == 1;
    } else if selection == 1 {
      assert up == 0 && down == 2;
    } else {
      assert up == 1 && down == 0;
    }
    assert JavaRem(up + 1, LEVEL_COUNT) == (up + 1) % LEVEL_COUNT;
    assert JavaRem(down - 1 + LEVEL_COUNT, LEVEL_COUNT) == (down + LEVEL_COUNT - 1) % LEVEL_COUNT;
  }

  /** Keys other than Enter, w, W, s and S leave the menu as it is. */
  lemma MenuIgnoresOtherKeys(selection: int, key: int)
    requires !IsEnter(key)
    requires key !in {KEY_UP_LOWER, KEY_UP_UPPER, KEY_DOWN_LOWER, KEY_DOWN_UPPER}
    ensures MenuStep(selection, key) == Menu(selection, false)
  {
  }

  /** The level the menu returns for the keys read, starting from `selection`;
      `None` when the keys run out before an Enter. */
  function MenuChoice(selection: int, keys: seq<int>): (r: Option<int>)
    ensures r.Some? <==> exists i :: 0 <= i < |keys| && IsEnter(keys[i])
    ensures 0 <= selection < LEVEL_COUNT && r.Some? ==> 1 <= r.value <= LEVEL_COUNT
    decreases |keys|
  {
    if keys == [] then None
    else
      var m := MenuStep(selection, keys[0]);
      if m.done then Some(m.selection + 1)
      else
        var r := MenuChoice(m.selection, keys[1..]);
        assert r.Some? ==> exists i :: 0 <= i < |keys| && IsEnter(keys[i]) by {
          if r.Some? {
            var i :| 0 <= i < |keys[1..]| && IsEnter(keys[1..][i]);
            assert IsEnter(keys[i + 1]);
          }
        }
        assert (exists i :: 0 <= i < |keys| && IsEnter(keys[i])) ==> r.Some? by {
          if exists i :: 0 <= i < |keys| && IsEnter(keys[i]) {
            var i :| 0 <= i < |keys| && IsEnter(keys[i]);
            assert i != 0;
            assert IsEnter(keys[1..][i - 1]);
          }
        }
        r
  }

  /** The `while (!selectionDone)` loop of `displayLevelMenu` over the keys read (one
      per iteration, the rest of the line being flushed). It returns the chosen level,
      1 to 3, after the first Enter, and `None` if no Enter is ever read. */
  method DisplayLevelMenu(keys: seq<int>) returns (level: Option<int>)
    ensures level == MenuChoice(0, keys)
    ensures level.Some? <==> exists i :: 0 <= i < |keys| && IsEnter(keys[i])
    ensures level.Some? ==> 1 <= level.value <= LEVEL_COUNT
  {
    var selection := 0;
    var selectionDone := false;
    var i := 0;
    while !selectionDone && i < |keys|
      invariant 0 <= i <= |keys|
      invariant 0 <= selection < LEVEL_COUNT
      invariant !selectionDone ==> MenuChoice(selection, keys[i..]) == MenuChoice(0, keys)
      invariant selectionDone ==> 0 < i && MenuChoice(0, keys) == Some(selection + 1)
      decreases |keys| - i, !selectionDone
    {
      var m := MenuStep(selection, keys[i]);
      assert keys[i..][1..] == keys[i + 1..];
      selection, selectionDone := m.selection, m.done;
      i := i + 1;
    }
    if selectionDone {
      level := Some(selection + 1);
    } else {
      level := None;
    }
  }

  /** The `switch` in `main`: 1 is EASY, 2 MEDIUM, 3 HARD, and anything else MEDIUM. */
  function LevelDifficulty(level: int): (d: Game.Difficulty)
    ensures d == Game.EASY <==> level == 1
    ensures d == Game.HARD <==> level == 3
    ensures d == Game.MEDIUM <==> level != 1 && level != 3
  {
    if level == 1 then Game.EASY
    else if level == 2 then Game.MEDIUM
    else if level == 3 then Game.HARD
    else Game.MEDIUM
  }

  /** A level returned by the menu never falls into the `default` branch: the menu's
      three entries map in order onto the three difficulties. */
  lemma MenuLevelsCoverDifficulties(keys: seq<int>)
    requires MenuChoice(0, keys).Some?
    ensures var level := MenuChoice(0, keys).value;
      LevelDifficulty(level) == [Game.EASY, Game.MEDIUM, Game.HARD][level - 1]
  {
  }
}

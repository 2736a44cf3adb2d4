/**
 * `setPropertyPrimary` and `setEpThemeColor` of src/layout/hooks/useDataThemeChange.ts:
 * the accent colour becomes `--el-color-primary`, and eleven tonal variants
 * `--el-color-primary-dark-1..2` and `--el-color-primary-light-1..9` are derived
 * from it with factor step/10. Whether a variant is darkened or lightened
 * depends on dark mode only, never on the "dark"/"light" in its name.
 */
module EpTheme {
  import opened ThemeState
  import opened Wrappers

  const PrimaryVar := "--el-color-primary"

  function DigitChar(d: nat): (c: char)
    requires d < 10
    ensures '0' <= c <= '9'
  {
    (('0' as int) + d) as char
  }

  /** The decimal rendering of `n` that a template literal produces. */
  function NatToString(n: nat): (r: string)
    ensures |r| >= 1
    ensures n < 10 <==> |r| == 1
    ensures r[|r| - 1] == DigitChar(n % 10)
  {
    if n < 10 then [DigitChar(n)] else NatToString(n / 10) + [DigitChar(n % 10)]
  }

  /** Different numbers render differently. */
  lemma {:induction false} NatToStringInjective(a: nat, b: nat)
    requires NatToString(a) == NatToString(b)
    ensures a == b
  {
    assert a % 10 == b % 10;
    if a >= 10 {
      assert NatToString(a)[..|NatToString(a)| - 1] == NatToString(a / 10);
      assert NatToString(b)[..|NatToString(b)| - 1] == NatToString(b / 10);
      NatToStringInjective(a / 10, b / 10);
    }
  }

  /** `--el-color-primary-${mode}-${i}` */
  function StepVar(mode: string, i: nat): string
  {
    PrimaryVar + "-" + mode + "-" + NatToString(i)
  }

  /** The variables `for (let i = lo; i <= hi; i++)` names for one mode. */
  function StepVars(mode: string, lo: nat, hi: nat): set<string>
  {
    set i: nat | lo <= i <= hi :: StepVar(mode, i)
  }

  /** The twelve variables `setEpThemeColor` writes. */
  function PrimaryVars(): set<string>
  {
    {PrimaryVar} + StepVars("dark", 1, 2) + StepVars("light", 1, 9)
  }

  /** The step-`i` variant of `color`: factor i/10, darkened in dark mode and lightened otherwise. */
  function Tone(shader: Shader, dark: bool, color: string, i: nat): string
  {
    if dark then shader.darken(color, i as real / 10.0) else shader.lighten(color, i as real / 10.0)
  }

  /** `style` shows `color` as the accent with all eleven variants derived for the given mode. */
  predicate ShowsAccent(style: map<string, string>, shader: Shader, dark: bool, color: string)
  {
    && PrimaryVar in style && style[PrimaryVar] == color
    && (forall i: nat :: 1 <= i <= 2 ==>
          StepVar("dark", i) in style && style[StepVar("dark", i)] == Tone(shader, dark, color, i))
    && (forall i: nat :: 1 <= i <= 9 ==>
          StepVar("light", i) in style && style[StepVar("light", i)] == Tone(shader, dark, color, i))
  }

  /** Step variables of one mode are told apart by their index, and the two modes never collide. */
  lemma StepVarInjective(m1: string, i: nat, m2: string, j: nat)
    requires m1 in {"dark", "light"} && m2 in {"dark", "light"}
    requires StepVar(m1, i) == StepVar(m2, j)
    ensures m1 == m2 && i == j
  {
    var p := PrimaryVar + "-";
    var a := StepVar(m1, i);
    assert a[|p|] == m1[0] && StepVar(m2, j)[|p|] == m2[0];
    var q := p + m1 + "-";
    assert a == q + NatToString(i) && StepVar(m2, j) == q + NatToString(j);
    assert NatToString(i) == a[|q|..];
    NatToStringInjective(i, j);
  }

  /** `PrimaryVar` is not one of the step variables: it is shorter than all of them. */
  lemma PrimaryVarIsNotAStep(mode: string, i: nat)
    ensures StepVar(mode, i) != PrimaryVar
  {
    assert |StepVar(mode, i)| > |PrimaryVar|;
  }

  /** `for (let i = lo; i <= hi; i++)` names `hi - lo + 1` distinct variables. */
  lemma {:induction false} StepVarsCount(mode: string, lo: nat, hi: nat)
    requires mode in {"dark", "light"}
    requires lo <= hi + 1
    ensures |StepVars(mode, lo, hi)| == hi + 1 - lo
    decreases hi + 1 - lo
  {
    if lo == hi + 1 {
      assert StepVars(mode, lo, hi) == {};
    } else {
      StepVarsCount(mode, lo + 1, hi);
      StepVarsSplit(mode, lo, hi);
    }
  }

  /** The base variable and the dark and light variants are three disjoint groups. */
  lemma PrimaryVarsDisjoint()
    ensures PrimaryVar !in StepVars("dark", 1, 2)
    ensures PrimaryVar !in StepVars("light", 1, 9)
    ensures StepVars("dark", 1, 2) !! StepVars("light", 1, 9)
  {
    forall x | x in StepVars("dark", 1, 2)
      ensures x !in StepVars("light", 1, 9) && x != PrimaryVar
    {
      var i: nat :| 1 <= i <= 2 && x == StepVar("dark", i);
      PrimaryVarIsNotAStep("dark", i);
      forall j: nat | 1 <= j <= 9
        ensures x != StepVar("light", j)
      {
        if x == StepVar("light", j) {
          StepVarInjective("dark", i, "light", j);
        }
      }
    }
    forall x | x in StepVars("light", 1, 9)
      ensures x != PrimaryVar
    {
      var j: nat :| 1 <= j <= 9 && x == StepVar("light", j);
      PrimaryVarIsNotAStep("light", j);
    }
  }

  /** `setEpThemeColor` writes exactly twelve distinct CSS variables. */
  lemma PrimaryVarsCount()
    ensures |PrimaryVars()| == 12
  {
    StepVarsCount("dark", 1, 2);
    StepVarsCount("light", 1, 9);
    PrimaryVarsDisjoint();
    var d := StepVars("dark", 1, 2);
    var l := StepVars("light", 1, 9);
    assert |d + l| == 11;
  }

  /** Peeling the first index off a step range. */
  lemma StepVarsSplit(mode: string, lo: nat, hi: nat)
    requires mode in {"dark", "light"}
    requires lo <= hi
    ensures StepVars(mode, lo, hi) == {StepVar(mode, lo)} + StepVars(mode, lo + 1, hi)
    ensures StepVar(mode, lo) !in StepVars(mode, lo + 1, hi)
  {
    if StepVar(mode, lo) in StepVars(mode, lo + 1, hi) {
      var j: nat :| lo + 1 <= j <= hi && StepVar(mode, j) == StepVar(mode, lo);
      StepVarInjective(mode, j, mode, lo);
    }
  }

  /** `setPropertyPrimary(mode, i, color)`: one variant written, the shade chosen by dark mode alone. */
  function SetPropertyPrimary(st: ThemeState, shader: Shader, mode: string, i: nat, color: string): (r: ThemeState)
    ensures r == st.(style := r.style)
    ensures r.style.Keys == st.style.Keys + {StepVar(mode, i)}
    ensures st.dark ==> r.style[StepVar(mode, i)] == shader.darken(color, i as real / 10.0)
    ensures !st.dark ==> r.style[StepVar(mode, i)] == shader.lighten(color, i as real / 10.0)
    ensures forall k :: k in st.style && k != StepVar(mode, i) ==> r.style[k] == st.style[k]
  {
    st.(style := st.style[StepVar(mode, i) := Tone(shader, st.dark, color, i)])
  }

  /** `r` is what the loop over `lo..hi` leaves of `st`: the steps written, every other variable kept. */
  predicate LoopResult(st: ThemeState, shader: Shader, mode: string, lo: nat, hi: nat, color: string, r: ThemeState)
  {
    && r == st.(style := r.style)
    && r.style.Keys == st.style.Keys + StepVars(mode, lo, hi)
    && (forall j: nat :: lo <= j <= hi ==> r.style[StepVar(mode, j)] == Tone(shader, st.dark, color, j))
    && (forall k :: k in st.style && k !in StepVars(mode, lo, hi) ==> r.style[k] == st.style[k])
  }

  /** One iteration: writing step `lo` and then looping over `lo + 1..hi` is looping over `lo..hi`. */
  lemma LoopStep(st: ThemeState, shader: Shader, mode: string, lo: nat, hi: nat, color: string, s1: ThemeState, r: ThemeState)
    requires mode in {"dark", "light"} && lo <= hi
    requires s1 == st.(style := st.style[StepVar(mode, lo) := Tone(shader, st.dark, color, lo)])
    requires LoopResult(s1, shader, mode, lo + 1, hi, color, r)
    ensures LoopResult(st, shader, mode, lo, hi, color, r)
  {
    var v := StepVar(mode, lo);
    var rest := StepVars(mode, lo + 1, hi);
    StepVarsSplit(mode, lo, hi);
    assert s1.dark == st.dark;
    assert r.style.Keys == st.style.Keys + StepVars(mode, lo, hi);
    forall j: nat | lo <= j <= hi
      ensures r.style[StepVar(mode, j)] == Tone(shader, st.dark, color, j)
    {
      if j == lo {
        assert v !in rest && v in s1.style;
      }
    }
    forall k | k in st.style && k !in StepVars(mode, lo, hi)
      ensures r.style[k] == st.style[k]
    {
      assert k != v && k !in rest && k in s1.style;
    }
  }

  /** The loop `for (let i = lo; i <= hi; i++) setPropertyPrimary(mode, i, color)`. */
  function StepLoop(st: ThemeState, shader: Shader, mode: string, lo: nat, hi: nat, color: string): (r: ThemeState)
    requires mode in {"dark", "light"}
    ensures r == st.(style := r.style)
    ensures r.style.Keys == st.style.Keys + StepVars(mode, lo, hi)
    ensures forall j: nat :: lo <= j <= hi ==> r.style[StepVar(mode, j)] == Tone(shader, st.dark, color, j)
    ensures forall k :: k in st.style && k !in StepVars(mode, lo, hi) ==> r.style[k] == st.style[k]
    decreases hi + 1 - lo
  {
    if lo > hi then
      assert StepVars(mode, lo, hi) == {};
      st
    else
      var s1 := SetPropertyPrimary(st, shader, mode, lo, color);
      var r := StepLoop(s1, shader, mode, lo + 1, hi, color);
      LoopStep(st, shader, mode, lo, hi, color, s1, r);
      r
  }

  /** `s3` is `st` after the base variable and the dark loop of `setEpThemeColor`. */
  predicate DarkStage(st: ThemeState, shader: Shader, color: string, s3: ThemeState)
  {
    && s3 == st.(style := s3.style, epThemeColor := Some(color))
    && s3.style.Keys == st.style.Keys + {PrimaryVar} + StepVars("dark", 1, 2)
    && PrimaryVar in s3.style && s3.style[PrimaryVar] == color
    && (forall j: nat :: 1 <= j <= 2 ==> s3.style[StepVar("dark", j)] == Tone(shader, st.dark, color, j))
    && (forall k :: k in st.style && k != PrimaryVar && k !in StepVars("dark", 1, 2) ==> s3.style[k] == st.style[k])
  }

  /** `r` is `s3` after the light loop of `setEpThemeColor`. */
  predicate LightStage(st: ThemeState, shader: Shader, color: string, s3: ThemeState, r: ThemeState)
  {
    && r == s3.(style := r.style)
    && r.style.Keys == s3.style.Keys + StepVars("light", 1, 9)
    && (forall j: nat :: 1 <= j <= 9 ==> r.style[StepVar("light", j)] == Tone(shader, st.dark, color, j))
    && (forall k :: k in s3.style && k !in StepVars("light", 1, 9) ==> r.style[k] == s3.style[k])
  }

  lemma DarkStageHolds(st: ThemeState, shader: Shader, color: string)
    ensures DarkStage(st, shader, color,
              StepLoop(st.(epThemeColor := Some(color), style := st.style[PrimaryVar := color]), shader, "dark", 1, 2, color))
  {
    PrimaryVarsDisjoint();
  }

  lemma LightStageHolds(st: ThemeState, shader: Shader, color: string, s3: ThemeState)
    requires s3.dark == st.dark
    ensures LightStage(st, shader, color, s3, StepLoop(s3, shader, "light", 1, 9, color))
  {
  }

  /**
   * What the two loops of `setEpThemeColor` leave behind, given what each loop
   * promises: `s3` after the base variable and the dark loop, `r` after the light loop.
   */
  lemma AccentWrites(st: ThemeState, shader: Shader, color: string, s3: ThemeState, r: ThemeState)
    requires DarkStage(st, shader, color, s3)
    requires LightStage(st, shader, color, s3, r)
    ensures ShowsAccent(r.style, shader, st.dark, color)
    ensures r.style.Keys == st.style.Keys + PrimaryVars()
    ensures forall k :: k in st.style && k !in PrimaryVars() ==> r.style[k] == st.style[k]
  {
    PrimaryVarsDisjoint();
    forall i: nat | 1 <= i <= 2
      ensures StepVar("dark", i) in r.style && r.style[StepVar("dark", i)] == Tone(shader, st.dark, color, i)
    {
      assert StepVar("dark", i) in StepVars("dark", 1, 2);
    }
  }

  /**
   * `setEpThemeColor(color)`: hand the colour to the element-plus theme store,
   * set `--el-color-primary`, then the two dark and the nine light variants.
   * Afterwards the style shows `color` as the accent with every variant shaded
   * for the current mode, and no variable outside the twelve has changed.
   */
  function SetEpThemeColor(st: ThemeState, shader: Shader, color: string): (r: ThemeState)
    ensures r == st.(style := r.style, epThemeColor := Some(color))
    ensures ShowsAccent(r.style, shader, st.dark, color)
    ensures r.style.Keys == st.style.Keys + PrimaryVars()
    ensures forall k :: k in st.style && k !in PrimaryVars() ==> r.style[k] == st.style[k]
  {
    var s1 := st.(epThemeColor := Some(color));
    var s2 := s1.(style := s1.style[PrimaryVar := color]);
    var s3 := StepLoop(s2, shader, "dark", 1, 2, color);
    var r := StepLoop(s3, shader, "light", 1, 9, color);
    DarkStageHolds(st, shader, color);
    LightStageHolds(st, shader, color, s3);
    AccentWrites(st, shader, color, s3, r);
    r
  }

  /** Two styles that both show the same accent for the same mode agree on all twelve variables. */
  lemma {:induction false} ShowsAccentDetermines(m1: map<string, string>, m2: map<string, string>,
                                                  shader: Shader, dark: bool, color: string)
    requires ShowsAccent(m1, shader, dark, color) && ShowsAccent(m2, shader, dark, color)
    ensures forall k :: k in PrimaryVars() ==> k in m1 && k in m2 && m1[k] == m2[k]
  {
    forall k | k in PrimaryVars()
      ensures k in m1 && k in m2 && m1[k] == m2[k]
    {
      if k in StepVars("dark", 1, 2) {
        var i: nat :| 1 <= i <= 2 && k == StepVar("dark", i);
      } else if k in StepVars("light", 1, 9) {
        var i: nat :| 1 <= i <= 9 && k == StepVar("light", i);
      }
    }
  }

  /** `after` is `before` with the accent `color` written over the twelve variables and nothing else touched. */
  predicate AccentStyle(before: map<string, string>, shader: Shader, dark: bool, color: string, after: map<string, string>)
  {
    && ShowsAccent(after, shader, dark, color)
    && after.Keys == before.Keys + PrimaryVars()
    && (forall k :: k in before && k !in PrimaryVars() ==> after[k] == before[k])
  }

  /** Two accent writes in a row leave the style the second one alone leaves. */
  lemma {:induction false} AccentStyleLastWins(s0: map<string, string>, shader: Shader, dark: bool, a: string, b: string,
                                                m1: map<string, string>, m2: map<string, string>, m: map<string, string>)
    requires AccentStyle(s0, shader, dark, a, m1) && AccentStyle(m1, shader, dark, b, m2)
    requires AccentStyle(s0, shader, dark, b, m)
    ensures m2 == m
  {
    ShowsAccentDetermines(m2, m, shader, dark, b);
    assert m2.Keys == m.Keys;
    forall k | k in m
      ensures m2[k] == m[k]
    {
      if k !in PrimaryVars() {
        assert m2[k] == m1[k] == s0[k];
      }
    }
  }

  /** The accent write is deterministic: one starting style, one mode, one colour, one result. */
  lemma AccentStyleUnique(s0: map<string, string>, shader: Shader, dark: bool, c: string,
                          m1: map<string, string>, m2: map<string, string>)
    requires AccentStyle(s0, shader, dark, c, m1) && AccentStyle(s0, shader, dark, c, m2)
    ensures m1 == m2
  {
    ShowsAccentDetermines(m1, m2, shader, dark, c);
    assert forall k :: k in m1 ==> m1[k] == m2[k];
  }

  /** A later `setEpThemeColor` overwrites every trace of an earlier one. */
  lemma SetEpThemeColorLastWins(st: ThemeState, shader: Shader, a: string, b: string)
    ensures SetEpThemeColor(SetEpThemeColor(st, shader, a), shader, b) == SetEpThemeColor(st, shader, b)
  {
    var r1 := SetEpThemeColor(st, shader, a);
    var r2 := SetEpThemeColor(r1, shader, b);
    var r := SetEpThemeColor(st, shader, b);
    AccentStyleLastWins(st.style, shader, st.dark, a, b, r1.style, r2.style, r.style);
  }

  /** Starting from a style without any of the twelve variables, `setEpThemeColor` adds exactly twelve. */
  lemma SetEpThemeColorAddsTwelve(st: ThemeState, shader: Shader, color: string)
    requires st.style.Keys !! PrimaryVars()
    ensures |SetEpThemeColor(st, shader, color).style| == |st.style| + 12
  {
    PrimaryVarsCount();
    var r := SetEpThemeColor(st, shader, color);
    assert r.style.Keys == st.style.Keys + PrimaryVars();
    assert |r.style.Keys| == |st.style.Keys| + |PrimaryVars()|;
  }
}

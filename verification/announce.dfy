/**
 * The hourly announcement (`announceHourly`): the figures it reports and the
 * placeholder substitution that renders the broadcast text.
 */
module Announce {
  import opened Wrappers
  import opened Decimal
  import opened Text
  import opened ThresholdTable
  import opened Engine

  const OnlineKey: string := "%online%"
  const NextKey: string := "%next_threshold%"
  const ToGoKey: string := "%to_go%"
  const PreviewKey: string := "%commands_preview%"
  const PreviewSeparator: string := "; "

  /** The values an announcement reports besides the online count. */
  datatype Figures = Figures(next: int, toGo: int, preview: string)

  /**
   * The next threshold, how many players are still missing for it, and a
   * preview of the commands stored at that threshold.
   */
  function Compute(t: Table, online: nat): (f: Figures)
    ensures f.toGo >= 0 && f.next == online + f.toGo
    ensures f.toGo == 0 <==> forall k | k in KeySet(t) :: k <= online
    ensures f.toGo > 0 ==> f.next in KeySet(t)
    ensures forall k | k in KeySet(t) && k > online :: f.next <= k
    ensures f.next in ToMap(t) ==> f.preview == Join(ToMap(t)[f.next], PreviewSeparator)
    ensures f.next !in ToMap(t) ==> f.preview == ""
  {
    var next := NextThreshold(t, online);
    var preview := Join(Get(t, next).GetOr([]), PreviewSeparator);
    if next > online then
      assert next in KeySet(t);
      assert !(forall k | k in KeySet(t) :: k <= online);
      Figures(next, next - online, preview)
    else
      Figures(next, 0, preview)
  }

  /** The four substitutions, in this order; the preview goes in last. */
  function Render(template: string, online: nat, f: Figures): string {
    var a := Replace(template, OnlineKey, Show(online));
    var b := Replace(a, NextKey, Show(f.next));
    var c := Replace(b, ToGoKey, Show(f.toGo));
    Replace(c, PreviewKey, f.preview)
  }

  /** The text broadcast for `online` players. */
  function Announcement(s: State, online: nat): string {
    Render(s.template, online, Compute(s.table, online))
  }

  /**
   * When `online` is itself the highest threshold, the sentinel "next"
   * equals `online`, nothing is left to go, and the preview still shows the
   * commands stored at `online`.
   */
  lemma TopThresholdPreview(t: Table, online: nat)
    requires online in KeySet(t)
    requires forall k | k in KeySet(t) :: k <= online
    ensures Compute(t, online) == Figures(online, 0, Join(ToMap(t)[online], PreviewSeparator))
  {
  }

  /** A placeholder: '%', a name without '%', '%'. */
  predicate Token(s: string) {
    |s| >= 2 && s[0] == '%' && s[|s| - 1] == '%' && '%' !in s[1..|s| - 1]
  }

  lemma Placeholders()
    ensures Token(OnlineKey) && Token(NextKey) && Token(ToGoKey) && Token(PreviewKey)
    ensures '/' !in OnlineKey && '/' !in NextKey && '/' !in ToGoKey && '/' !in PreviewKey
  {
  }

  /** One placeholder never occurs inside a different one. */
  lemma DistinctTokens(tok: string, pat: string)
    requires Token(tok) && Token(pat) && tok != pat
    ensures Absent(tok, pat)
  {
  }

  /** A target starting with a character the text lacks occurs nowhere in it. */
  lemma AbsentByFirstChar(s: string, pat: string)
    requires |pat| > 0 && pat[0] !in s
    ensures Absent(s, pat)
  {
    forall i: nat | i <= |s|
      ensures !MatchAt(s, pat, i)
    {
      if i + |pat| <= |s| {
        assert s[i..i + |pat|][0] == s[i];
      }
    }
  }

  /** Replacing a placeholder in '/' followed by a placeholder. */
  lemma ReplaceSlashToken(tok: string, pat: string, rep: string)
    requires Token(tok) && Token(pat) && '/' !in pat
    ensures Replace("/" + tok, pat, rep) == "/" + (if tok == pat then rep else tok)
  {
    var s := "/" + tok;
    ReplaceSkipFirst(s, pat, rep);
    assert s[1..] == tok;
    if tok == pat {
      ReplaceWhole(pat, rep);
    } else {
      DistinctTokens(tok, pat);
      ReplaceAbsent(tok, pat, rep);
    }
  }

  /** Text without '%' is left alone by every placeholder substitution. */
  lemma ReplaceInPlain(s: string, pat: string, rep: string)
    requires Token(pat) && '%' !in s
    ensures Replace(s, pat, rep) == s
  {
    AbsentByFirstChar(s, pat);
    ReplaceAbsent(s, pat, rep);
  }

  /** A substitution over four parts, each after the first starting with '/'. */
  lemma ReplaceFour(a: string, b: string, c: string, d: string, pat: string, rep: string)
    requires Token(pat) && '/' !in pat
    requires |b| > 0 && |c| > 0 && |d| > 0 && b[0] == '/' && c[0] == '/' && d[0] == '/'
    ensures Replace(a + b + c + d, pat, rep)
         == Replace(a, pat, rep) + Replace(b, pat, rep) + Replace(c, pat, rep) + Replace(d, pat, rep)
  {
    ReplaceSplit(a + b + c, d, pat, rep);
    ReplaceSplit(a + b, c, pat, rep);
    ReplaceSplit(a, b, pat, rep);
  }

  /** A template without any '%' is broadcast exactly as written. */
  lemma RenderWithoutPlaceholders(template: string, online: nat, f: Figures)
    requires '%' !in template
    ensures Render(template, online, f) == template
  {
    Placeholders();
    ReplaceInPlain(template, OnlineKey, Show(online));
    ReplaceInPlain(template, NextKey, Show(f.next));
    ReplaceInPlain(template, ToGoKey, Show(f.toGo));
    ReplaceInPlain(template, PreviewKey, f.preview);
  }

  /**
   * The preview is substituted last, so placeholder text inside the
   * commands is broadcast literally rather than being substituted.
   */
  lemma PreviewIsLiteral(online: nat, f: Figures)
    ensures Render(PreviewKey, online, f) == f.preview
  {
    Placeholders();
    DistinctTokens(PreviewKey, OnlineKey);
    ReplaceAbsent(PreviewKey, OnlineKey, Show(online));
    DistinctTokens(PreviewKey, NextKey);
    ReplaceAbsent(PreviewKey, NextKey, Show(f.next));
    DistinctTokens(PreviewKey, ToGoKey);
    ReplaceAbsent(PreviewKey, ToGoKey, Show(f.toGo));
    ReplaceWhole(PreviewKey, f.preview);
  }

  /** Decimal text never contains a placeholder character. */
  lemma ShowPlain(n: int)
    ensures '%' !in Show(n)
  {
  }

  /** The four placeholders separated by '/'. */
  const SlashTemplate: string := OnlineKey + ("/" + NextKey) + ("/" + ToGoKey) + ("/" + PreviewKey)

  lemma SubstituteOnline(x: string)
    ensures Replace(SlashTemplate, OnlineKey, x) == x + ("/" + NextKey) + ("/" + ToGoKey) + ("/" + PreviewKey)
  {
    Placeholders();
    ReplaceFour(OnlineKey, "/" + NextKey, "/" + ToGoKey, "/" + PreviewKey, OnlineKey, x);
    ReplaceWhole(OnlineKey, x);
    ReplaceSlashToken(NextKey, OnlineKey, x);
    ReplaceSlashToken(ToGoKey, OnlineKey, x);
    ReplaceSlashToken(PreviewKey, OnlineKey, x);
  }

  lemma SubstituteNext(x: string, y: string)
    requires '%' !in x
    ensures Replace(x + ("/" + NextKey) + ("/" + ToGoKey) + ("/" + PreviewKey), NextKey, y)
         == x + ("/" + y) + ("/" + ToGoKey) + ("/" + PreviewKey)
  {
    Placeholders();
    ReplaceFour(x, "/" + NextKey, "/" + ToGoKey, "/" + PreviewKey, NextKey, y);
    ReplaceInPlain(x, NextKey, y);
    ReplaceSlashToken(NextKey, NextKey, y);
    ReplaceSlashToken(ToGoKey, NextKey, y);
    ReplaceSlashToken(PreviewKey, NextKey, y);
  }

  lemma SubstituteToGo(x: string, y: string, z: string)
    requires '%' !in x && '%' !in y
    ensures Replace(x + ("/" + y) + ("/" + ToGoKey) + ("/" + PreviewKey), ToGoKey, z)
         == x + ("/" + y) + ("/" + z) + ("/" + PreviewKey)
  {
    Placeholders();
    ReplaceFour(x, "/" + y, "/" + ToGoKey, "/" + PreviewKey, ToGoKey, z);
    ReplaceInPlain(x, ToGoKey, z);
    ReplaceInPlain("/" + y, ToGoKey, z);
    ReplaceSlashToken(ToGoKey, ToGoKey, z);
    ReplaceSlashToken(PreviewKey, ToGoKey, z);
  }

  lemma SubstitutePreview(x: string, y: string, z: string, p: string)
    requires '%' !in x && '%' !in y && '%' !in z
    ensures Replace(x + ("/" + y) + ("/" + z) + ("/" + PreviewKey), PreviewKey, p)
         == x + ("/" + y) + ("/" + z) + ("/" + p)
  {
    Placeholders();
    ReplaceFour(x, "/" + y, "/" + z, "/" + PreviewKey, PreviewKey, p);
    ReplaceInPlain(x, PreviewKey, p);
    ReplaceInPlain("/" + y, PreviewKey, p);
    ReplaceInPlain("/" + z, PreviewKey, p);
    ReplaceSlashToken(PreviewKey, PreviewKey, p);
  }

  /**
   * A template holding each placeholder once, separated by '/', renders
   * as the count, the next threshold, the players to go and the preview,
   * separated by '/'; placeholder text inside the preview stays as it is.
   */
  lemma RenderSlashTemplate(online: nat, f: Figures)
    ensures Render(SlashTemplate, online, f)
         == Show(online) + ("/" + Show(f.next)) + ("/" + Show(f.toGo)) + ("/" + f.preview)
  {
    var x, y, z := Show(online), Show(f.next), Show(f.toGo);
    ShowPlain(online);
    ShowPlain(f.next);
    ShowPlain(f.toGo);
    SubstituteOnline(x);
    SubstituteNext(x, y);
    SubstituteToGo(x, y, z);
    SubstitutePreview(x, y, z, f.preview);
  }

  lemma ExampleFigures(t: Table)
    requires t == Put([], 10, ["cmd1", "cmd2"])
    ensures Compute(t, 7) == Figures(10, 3, "cmd1; cmd2")
    ensures Show(7) == "7" && Show(10) == "10" && Show(3) == "3"
  {
    assert t == [Entry(10, ["cmd1", "cmd2"])];
  }

  /** Threshold 10 with commands cmd1, cmd2 and 7 players online render as "7/10/3/cmd1; cmd2". */
  lemma RenderExample(t: Table)
    requires t == Put([], 10, ["cmd1", "cmd2"])
    ensures Render(SlashTemplate, 7, Compute(t, 7)) == "7/10/3/cmd1; cmd2"
  {
    calc {
      Render(SlashTemplate, 7, Compute(t, 7));
    == { ExampleFigures(t); }
      Render(SlashTemplate, 7, Figures(10, 3, "cmd1; cmd2"));
    == { RenderSlashTemplate(7, Figures(10, 3, "cmd1; cmd2")); ExampleFigures(t); }
      "7" + ("/" + "10") + ("/" + "3") + ("/" + "cmd1; cmd2");
    == { ExampleText(); }
      "7/10/3/cmd1; cmd2";
    }
  }

  lemma ExampleText()
    ensures "7" + ("/" + "10") + ("/" + "3") + ("/" + "cmd1; cmd2") == "7/10/3/cmd1; cmd2"
  {
  }
}

/**
 The share card's line clipper (app/dashboard/playgroundLib.js): cutting a token
 sequence after n lines against cutting the joined text after n lines.
 */
module TokenWindow {
  datatype Token = Token(text: string, i: int)

  datatype Window = Window(tokens: seq<Token>, cutStart: bool, cutEnd: bool)

  datatype Clip = Clip(text: string, cut: bool)

  // ---- split and join on newlines ----

  function Split(s: string): (parts: seq<string>)
    ensures |parts| == Newlines(s) + 1
  {
    if s == "" then [""]
    else
      var rest := Split(s[1..]);
      if s[0] == '\n' then [""] + rest else [[s[0]] + rest[0]] + rest[1..]
  }

  function Join(parts: seq<string>): string {
    if parts == [] then ""
    else if |parts| == 1 then parts[0]
    else parts[0] + "\n" + Join(parts[1..])
  }

  function Newlines(s: string): nat {
    if s == "" then 0 else (if s[0] == '\n' then 1 else 0) + Newlines(s[1..])
  }

  function ClipLines(text: string, n: int): Clip {
    var lines := Split(text);
    if n <= 0 || |lines| <= n then Clip(text, false) else Clip(Join(lines[..n]), true)
  }

  function Concat(tokens: seq<Token>): string {
    if tokens == [] then "" else tokens[0].text + Concat(tokens[1..])
  }

  // ---- The nth newline ----

  /** The text before the nth newline, all of it when there are fewer. */
  function Before(s: string, n: nat): string
    requires n >= 1
  {
    if s == "" then ""
    else if s[0] != '\n' then [s[0]] + Before(s[1..], n)
    else if n == 1 then ""
    else "\n" + Before(s[1..], n - 1)
  }

  /** The text after the nth newline. */
  function After(s: string, n: nat): string
    requires n >= 1
  {
    if s == "" then ""
    else if s[0] != '\n' then After(s[1..], n)
    else if n == 1 then s[1..]
    else After(s[1..], n - 1)
  }

  lemma {:induction false} JoinGrowsFront(c: char, parts: seq<string>)
    requires parts != []
    ensures Join([[c] + parts[0]] + parts[1..]) == [c] + Join(parts)
  {
    var grown := [[c] + parts[0]] + parts[1..];
    if |parts| > 1 {
      assert grown[1..] == parts[1..];
    }
  }

  lemma {:induction false} JoinAfterBreak(parts: seq<string>)
    requires parts != []
    ensures Join([""] + parts) == "\n" + Join(parts)
  {
    assert ([""] + parts)[1..] == parts;
  }

  lemma SplitWithin(s: string, n: nat)
    requires s != "" && s[0] != '\n' && 1 <= n <= |Split(s[1..])|
    ensures Join(Split(s)[..n]) == [s[0]] + Join(Split(s[1..])[..n])
    ensures Split(s)[n..] == Split(s[1..])[n..]
  {
    var rest := Split(s[1..]);
    assert Split(s) == [[s[0]] + rest[0]] + rest[1..];
    assert Split(s)[..n] == [[s[0]] + rest[..n][0]] + rest[..n][1..];
    JoinGrowsFront(s[0], rest[..n]);
  }

  lemma SplitAfterBreak(s: string, n: nat)
    requires s != "" && s[0] == '\n' && n <= |Split(s[1..])|
    ensures Join(Split(s)[..n + 1]) == if n == 0 then "" else "\n" + Join(Split(s[1..])[..n])
    ensures Split(s)[n + 1..] == Split(s[1..])[n..]
  {
    var rest := Split(s[1..]);
    assert Split(s) == [""] + rest;
    assert Split(s)[..n + 1] == [""] + rest[..n];
    if n > 0 {
      JoinAfterBreak(rest[..n]);
    }
  }

  lemma {:induction false} LinesBefore(s: string, n: nat)
    requires 1 <= n <= Newlines(s)
    ensures Join(Split(s)[..n]) == Before(s, n)
  {
    if s[0] != '\n' {
      LinesBefore(s[1..], n);
      SplitWithin(s, n);
    } else {
      SplitAfterBreak(s, n - 1);
      if n > 1 {
        LinesBefore(s[1..], n - 1);
      }
    }
  }

  lemma LinesAfterBreak(s: string, n: nat)
    requires s != "" && s[0] == '\n' && 1 <= n <= Newlines(s)
    requires n > 1 ==> Join(Split(s[1..])[n - 1..]) == After(s[1..], n - 1)
    ensures Join(Split(s)[n..]) == After(s, n)
  {
    SplitAfterBreak(s, n - 1);
    if n == 1 {
      assert Split(s)[1..] == Split(s[1..]);
      JoinOfSplit(s[1..]);
    }
  }

  lemma {:induction false} LinesAfter(s: string, n: nat)
    requires 1 <= n <= Newlines(s)
    ensures Join(Split(s)[n..]) == After(s, n)
  {
    if s[0] != '\n' {
      LinesAfter(s[1..], n);
      SplitWithin(s, n);
    } else {
      if n > 1 {
        LinesAfter(s[1..], n - 1);
      }
      LinesAfterBreak(s, n);
    }
  }

  lemma {:induction false} JoinOfSplit(s: string)
    ensures Join(Split(s)) == s
  {
    if s != "" {
      JoinOfSplit(s[1..]);
      if s[0] == '\n' {
        JoinAfterBreak(Split(s[1..]));
      } else {
        JoinGrowsFront(s[0], Split(s[1..]));
      }
    }
  }

  lemma {:induction false} FewLines(s: string, n: nat)
    requires n > Newlines(s)
    ensures Before(s, n) == s && After(s, n) == ""
  {
    if s != "" {
      FewLines(s[1..], if s[0] == '\n' then n - 1 else n);
    }
  }

  lemma {:induction false} NewlinesConcat(a: string, b: string)
    ensures Newlines(a + b) == Newlines(a) + Newlines(b)
  {
    if a == "" {
      assert a + b == b;
    } else {
      NewlinesConcat(a[1..], b);
      assert (a + b)[1..] == a[1..] + b;
    }
  }

  /** Where the nth newline of a concatenation falls. */
  lemma {:induction false} CutConcat(a: string, b: string, n: nat)
    requires n >= 1
    ensures Newlines(a) >= n ==> Before(a + b, n) == Before(a, n) && After(a + b, n) == After(a, n) + b
    ensures Newlines(a) < n ==>
              && Before(a + b, n) == a + Before(b, n - Newlines(a)) && After(a + b, n) == After(b, n - Newlines(a))
  {
    if a == "" {
      assert a + b == b;
    } else {
      assert (a + b)[1..] == a[1..] + b;
      if a[0] != '\n' {
        CutConcat(a[1..], b, n);
      } else if n > 1 {
        CutConcat(a[1..], b, n - 1);
      }
    }
  }

  /** Clipping text is cutting at the nth newline. */
  lemma ClipIsCut(text: string, n: int)
    ensures ClipLines(text, n).cut <==> 1 <= n <= Newlines(text)
    ensures n >= 1 ==> ClipLines(text, n).text == Before(text, n)
    ensures ClipLines(text, n).cut ==> text == ClipLines(text, n).text + "\n" + After(text, n)
    ensures ClipLines(text, n).cut ==> Newlines(ClipLines(text, n).text) == n - 1
    ensures !ClipLines(text, n).cut ==> ClipLines(text, n).text == text
  {
    if 1 <= n <= Newlines(text) {
      KeptLines(text, n);
      LinesBefore(text, n);
      CutRejoins(text, n);
    } else if n >= 1 {
      FewLines(text, n);
    }
  }

  /** What is kept has n lines: n - 1 newlines, and the text goes on with the nth. */
  lemma {:induction false} KeptLines(s: string, n: nat)
    requires 1 <= n <= Newlines(s)
    ensures Newlines(Before(s, n)) == n - 1
  {
    if s[0] != '\n' {
      KeptLines(s[1..], n);
      assert ([s[0]] + Before(s[1..], n))[1..] == Before(s[1..], n);
    } else if n > 1 {
      KeptLines(s[1..], n - 1);
      assert ("\n" + Before(s[1..], n - 1))[1..] == Before(s[1..], n - 1);
    }
  }

  lemma {:induction false} CutRejoins(s: string, n: nat)
    requires 1 <= n <= Newlines(s)
    ensures s == Before(s, n) + "\n" + After(s, n)
  {
    if s[0] != '\n' {
      CutRejoins(s[1..], n);
    } else if n > 1 {
      CutRejoins(s[1..], n - 1);
    }
  }

  lemma {:induction false} ConcatConcat(a: seq<Token>, b: seq<Token>)
    ensures Concat(a + b) == Concat(a) + Concat(b)
  {
    if a == [] {
      assert a + b == b;
    } else {
      ConcatConcat(a[1..], b);
      assert (a + b)[0] == a[0] && (a + b)[1..] == a[1..] + b;
      var x, y, z := a[0].text, Concat(a[1..]), Concat(b);
      assert x + (y + z) == x + y + z;
    }
  }

  // ---- The token loop ----

  /** The kept tokens are the first ones, the last perhaps shortened, each under its own number. */
  ghost predicate IsCutOf(kept: seq<Token>, tokens: seq<Token>) {
    && |kept| <= |tokens|
    && forall j :: 0 <= j < |kept| ==>
         kept[j].i == tokens[j].i && kept[j].text <= tokens[j].text && (j < |kept| - 1 ==> kept[j] == tokens[j])
  }

  /** The window when the nth newline lies in token `k`, after `seen` earlier ones. */
  method CutWindow(tokens: seq<Token>, k: nat, seen: nat, n: nat) returns (w: Window)
    requires k < |tokens| && seen == Newlines(Concat(tokens[..k])) < n <= seen + Newlines(tokens[k].text)
    ensures Concat(w.tokens) == Before(Concat(tokens), n) && n <= Newlines(Concat(tokens))
    ensures IsCutOf(w.tokens, tokens) && !w.cutStart
    ensures (forall t :: t in tokens ==> t.text != "") ==> (w.cutEnd <==> After(Concat(tokens), n) != "")
  {
    var parts, keep := Split(tokens[k].text), n - seen;
    LinesBefore(tokens[k].text, keep);
    LinesAfter(tokens[k].text, keep);
    var head, rest := Join(parts[..keep]), Join(parts[keep..]);
    var last := if head != "" then [Token(head, tokens[k].i)] else [];
    CutInToken(tokens, k, n);
    ConcatConcat(tokens[..k], last);
    assert Concat(last) == head;
    BeforeIsPrefix(tokens[k].text, keep);
    LaterTokens(tokens, k + 1);
    return Window(tokens[..k] + last, false, rest != "" || k < |tokens| - 1);
  }

  /** `tokenWindow` in its `lines` mode: whatever the tokens, the card shows the first `n` lines. */
  method LineWindow(tokens: seq<Token>, n: int) returns (w: Window)
    ensures Concat(w.tokens) == ClipLines(Concat(tokens), n).text
    ensures IsCutOf(w.tokens, tokens) && !w.cutStart
    ensures w.cutEnd ==> ClipLines(Concat(tokens), n).cut
    // The ellipsis is drawn when the clipper says it cut, unless nothing follows the nth newline.
    ensures (forall t :: t in tokens ==> t.text != "") ==>
              var clip := ClipLines(Concat(tokens), n);
              (w.cutEnd <==> clip.cut && Concat(tokens) != clip.text + "\n")
  {
    ClipIsCut(Concat(tokens), n);
    if n <= 0 {
      return Window(tokens, false, false);
    }
    var seen := 0;
    for k := 0 to |tokens|
      invariant seen == Newlines(Concat(tokens[..k])) && seen < n
    {
      var parts := Split(tokens[k].text);
      PositionOfToken(tokens, k);
      if seen + |parts| - 1 >= n {
        w := CutWindow(tokens, k, seen, n);
        return;
      }
      seen := seen + |parts| - 1;
    }
    assert tokens[..|tokens|] == tokens;
    return Window(tokens, false, false);
  }

  lemma PositionOfToken(tokens: seq<Token>, k: nat)
    requires k < |tokens|
    ensures Newlines(Concat(tokens[..k + 1])) == Newlines(Concat(tokens[..k])) + Newlines(tokens[k].text)
  {
    assert tokens[..k + 1] == tokens[..k] + [tokens[k]];
    ConcatConcat(tokens[..k], [tokens[k]]);
    assert Concat([tokens[k]]) == tokens[k].text;
    NewlinesConcat(Concat(tokens[..k]), tokens[k].text);
  }

  /** The nth newline of the text, found inside token `k`. */
  lemma CutInToken(tokens: seq<Token>, k: nat, n: nat)
    requires k < |tokens| && Newlines(Concat(tokens[..k])) < n <= Newlines(Concat(tokens[..k])) + Newlines(tokens[k].text)
    ensures var keep := n - Newlines(Concat(tokens[..k]));
            && Before(Concat(tokens), n) == Concat(tokens[..k]) + Before(tokens[k].text, keep)
            && After(Concat(tokens), n) == After(tokens[k].text, keep) + Concat(tokens[k + 1..])
            && n <= Newlines(Concat(tokens))
  {
    var front, rest := Concat(tokens[..k]), Concat(tokens[k + 1..]);
    assert tokens == tokens[..k] + tokens[k..] && tokens[k..][1..] == tokens[k + 1..];
    ConcatConcat(tokens[..k], tokens[k..]);
    CutConcat(front, tokens[k].text + rest, n);
    CutConcat(tokens[k].text, rest, n - Newlines(front));
    NewlinesConcat(front, tokens[k].text + rest);
    NewlinesConcat(tokens[k].text, rest);
  }

  lemma {:induction false} BeforeIsPrefix(s: string, n: nat)
    requires n >= 1
    ensures Before(s, n) <= s
  {
    if s != "" && !(s[0] == '\n' && n == 1) {
      BeforeIsPrefix(s[1..], if s[0] == '\n' then n - 1 else n);
    }
  }

  lemma LaterTokens(tokens: seq<Token>, k: nat)
    requires k <= |tokens|
    ensures (forall t :: t in tokens ==> t.text != "") ==> (Concat(tokens[k..]) == "" <==> k == |tokens|)
  {
    if k < |tokens| {
      assert tokens[k] in tokens && tokens[k..][0] == tokens[k];
    }
  }
}

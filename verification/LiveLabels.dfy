/**
 When the rendered labels of a program cannot collide: the names of keys and hotkeys are single
 words, and no key is named like one of the words the labels add.
*/
module LiveLabels {
  import opened Motion
  import opened Configuration
  import opened LiveRuntime
  import opened LiveInvariants
  import opened LiveAfters
  import opened LiveScans

  predicate Plain(word: string) {
    word != "" && ' ' !in word
  }

  const RESERVED_WORDS: set<string> := {
    "<Leader>", "<LClick>", "<RClick>", "<MClick>", "<WheelUp>", "<WheelDown>",
    "press", "repeat", "loop_before", "loop_once", "loop_after"
  }

  predicate PlainToken(token: Token) {
    token.Key? ==> Plain(token.name) && token.name !in RESERVED_WORDS
  }

  ghost predicate PlainProgram(p: LiveProgram) {
    && (forall t, i :: t in p.table.motions && 0 <= i < |t| ==> PlainToken(t[i]))
    && (forall q :: q in p.presses ==> PlainToken(q.trigger))
    && (forall b :: b in p.bindings ==> Plain(b.trigger.name))
  }

  lemma TokenPlain(token: Token)
    requires PlainToken(token)
    ensures Plain(DescribeToken(token))
    ensures DescribeToken(token) !in {"press", "repeat", "loop_before", "loop_once", "loop_after"}
  {
  }

  lemma TokenInjective(a: Token, b: Token)
    requires PlainToken(a) && PlainToken(b) && DescribeToken(a) == DescribeToken(b)
    ensures a == b
  {
    assert "<Leader>"[1] == 'L' && "<LClick>"[1] == 'L' && "<Leader>"[2] == 'e' && "<LClick>"[2] == 'C';
    assert "<RClick>"[1] == 'R' && "<MClick>"[1] == 'M' && "<WheelUp>"[1] == 'W' && "<WheelDown>"[1] == 'W';
    assert "<WheelUp>"[6] == 'U' && "<WheelDown>"[6] == 'D';
  }

  ghost predicate AllPlain(words: seq<string>) {
    forall i :: 0 <= i < |words| ==> Plain(words[i])
  }

  /** A plain word up to the first space is determined by the text. */
  lemma FirstWord(a: string, x: string, b: string, y: string)
    requires Plain(a) && Plain(b) && a + " " + x == b + " " + y
    ensures a == b && x == y
  {
    var s := a + " " + x;
    assert s[|a|] == ' ' && forall i :: 0 <= i < |a| ==> s[i] != ' ';
    assert s == b + " " + y && s[|b|] == ' ' && forall i :: 0 <= i < |b| ==> s[i] != ' ';
    assert |a| == |b|;
    assert a == s[..|a|] && b == s[..|b|];
    assert x == s[|a| + 1..] && y == s[|b| + 1..];
  }

  lemma JoinSpaces(words: seq<string>)
    requires AllPlain(words) && words != []
    ensures ' ' in Join(words) <==> |words| > 1
  {
    if |words| > 1 {
      assert Join(words)[|words[0]|] == ' ';
    }
  }

  lemma {:induction false} JoinInjective(a: seq<string>, b: seq<string>)
    requires AllPlain(a) && AllPlain(b) && a != [] && b != [] && Join(a) == Join(b)
    ensures a == b
  {
    JoinSpaces(a);
    JoinSpaces(b);
    if |a| == 1 {
    } else {
      FirstWord(a[0], Join(a[1..]), b[0], Join(b[1..]));
      JoinInjective(a[1..], b[1..]);
      assert a == [a[0]] + a[1..] && b == [b[0]] + b[1..];
    }
  }

  lemma {:induction false} JoinSnoc(words: seq<string>, last: string)
    requires words != []
    ensures Join(words + [last]) == Join(words) + " " + last
  {
    var all := words + [last];
    if |words| > 1 {
      JoinSnoc(words[1..], last);
      assert all[1..] == words[1..] + [last];
    } else {
      assert all[1..] == [last];
    }
  }

  lemma WordsPlain(p: LiveProgram, t: Trigger)
    requires PlainProgram(p) && t in p.table.motions
    ensures AllPlain(Words(t))
    ensures Words(t)[|t| - 1] !in {"press", "repeat", "loop_before", "loop_once", "loop_after"}
    ensures Words(t)[0] != "press"
  {
    forall i | 0 <= i < |t|
      ensures Plain(Words(t)[i]) && Words(t)[i] !in {"press", "repeat", "loop_before", "loop_once", "loop_after"}
    {
      TokenPlain(t[i]);
    }
  }

  lemma WordsInjective(p: LiveProgram, t: Trigger, u: Trigger)
    requires PlainProgram(p) && t in p.table.motions && u in p.table.motions
    requires Words(t) == Words(u)
    ensures t == u
  {
    forall i | 0 <= i < |t| ensures t[i] == u[i] {
      assert Words(t)[i] == Words(u)[i];
      TokenInjective(t[i], u[i]);
    }
  }

  /** A label of `t` with a suffix differs from a joined list that is not those same words. */
  lemma SuffixApart(p: LiveProgram, t: Trigger, suffix: string, words: seq<string>)
    requires PlainProgram(p) && t in p.table.motions
    requires Plain(suffix)
    requires AllPlain(words) && words != [] && words != Words(t) + [suffix]
    ensures Join(words) != Suffixed(t, suffix)
  {
    hide Join;
    hide Plain;
    WordsPlain(p, t);
    JoinSnoc(Words(t), suffix);
    if Join(words) == Join(Words(t) + [suffix]) {
      JoinInjective(words, Words(t) + [suffix]);
    }
  }

  /** A joined list is none of the labels of loop `t` when it does not end like one. */
  lemma LoopLabelsApart(p: LiveProgram, t: Trigger, words: seq<string>)
    requires PlainProgram(p) && t in p.table.motions
    requires AllPlain(words) && words != []
    requires forall suffix :: suffix in {"repeat", "loop_before", "loop_once"} ==> words != Words(t) + [suffix]
    ensures Join(words) !in LoopLabels(t)
  {
    SuffixApart(p, t, "repeat", words);
    SuffixApart(p, t, "loop_before", words);
    SuffixApart(p, t, "loop_once", words);
  }

  lemma SuffixedApart(p: LiveProgram, t: Trigger, u: Trigger, suffix: string)
    requires PlainProgram(p) && t in p.table.motions && u in p.table.motions
    requires suffix in {"repeat", "loop_before", "loop_once", "loop_after"}
    requires suffix == "loop_after" || u != t
    ensures Suffixed(u, suffix) !in LoopLabels(t)
  {
    WordsPlain(p, u);
    JoinSnoc(Words(u), suffix);
    var words := Words(u) + [suffix];
    forall other | other in {"repeat", "loop_before", "loop_once"} ensures words != Words(t) + [other] {
      if words == Words(t) + [other] {
        assert words[|words| - 1] == suffix == other;
        assert Words(u) == words[..|words| - 1] == Words(t);
        WordsInjective(p, t, u);
      }
    }
    LoopLabelsApart(p, t, words);
  }

  lemma SameSuffixApart(p: LiveProgram, t: Trigger, u: Trigger, suffix: string)
    requires PlainProgram(p) && t in p.table.motions && u in p.table.motions && u != t
    requires suffix in {"repeat", "loop_after"}
    ensures Suffixed(u, suffix) != Suffixed(t, suffix)
  {
    WordsPlain(p, u);
    JoinSnoc(Words(u), suffix);
    var words := Words(u) + [suffix];
    if words == Words(t) + [suffix] {
      assert Words(u) == words[..|words| - 1] == Words(t);
      WordsInjective(p, t, u);
    }
    SuffixApart(p, t, suffix, words);
  }

  lemma MotionLabelsApart(p: LiveProgram, t: Trigger, u: Trigger)
    requires PlainProgram(p) && t in p.table.motions && u in p.table.motions
    ensures Describe(u) !in LoopLabels(t) && AfterLabel(u) !in LoopLabels(t)
    ensures u != t ==> LoopLabels(u) !! LoopLabels(t)
  {
    WordsPlain(p, u);
    forall other | other in {"repeat", "loop_before", "loop_once"} ensures Words(u) != Words(t) + [other] {
      assert (Words(t) + [other])[|t|] == other;
    }
    LoopLabelsApart(p, t, Words(u));
    SuffixedApart(p, t, u, "loop_after");
    if u != t {
      SuffixedApart(p, t, u, "repeat");
      SuffixedApart(p, t, u, "loop_before");
      SuffixedApart(p, t, u, "loop_once");
    }
  }

  lemma PressLabelApart(p: LiveProgram, t: Trigger, token: Token)
    requires PlainProgram(p) && t in p.table.motions && PlainToken(token)
    ensures PressLabel(token) !in LoopLabels(t)
  {
    TokenPlain(token);
    WordsPlain(p, t);
    var words := ["press", DescribeToken(token)];
    assert words[1..] == [DescribeToken(token)];
    assert "press " == "press" + " ";
    assert PressLabel(token) == Join(words);
    forall other | other in {"repeat", "loop_before", "loop_once"} ensures words != Words(t) + [other] {
      assert (Words(t) + [other])[0] == Words(t)[0];
    }
    LoopLabelsApart(p, t, words);
  }

  lemma BindingLabelApart(p: LiveProgram, t: Trigger, hotkey: Hotkey)
    requires PlainProgram(p) && t in p.table.motions && Plain(hotkey.name)
    ensures BindingLabel(hotkey) !in LoopLabels(t)
  {
    var words := [hotkey.name];
    assert Join(words) == hotkey.name;
    forall other | other in {"repeat", "loop_before", "loop_once"} ensures words != Words(t) + [other] {
      assert |Words(t) + [other]| > 1;
    }
    LoopLabelsApart(p, t, words);
  }

  /** With plain names, no label of the program can be mistaken for a label of loop `t`. */
  lemma PlainNamesKeepLabelsApart(p: LiveProgram, t: Trigger)
    requires PlainProgram(p) && t in p.table.motions
    ensures LabelsApart(p, t) && OwnRepeatLabel(p, t) && OwnAfterLabel(p, t)
  {
    forall b | b in p.bindings ensures BindingLabel(b.trigger) !in LoopLabels(t) {
      BindingLabelApart(p, t, b.trigger);
    }
    forall q | q in p.presses ensures PressLabel(q.trigger) !in LoopLabels(t) {
      PressLabelApart(p, t, q.trigger);
    }
    forall u | u in p.table.motions
      ensures Describe(u) !in LoopLabels(t) && AfterLabel(u) !in LoopLabels(t)
      ensures u != t ==> LoopLabels(u) !! LoopLabels(t)
    {
      MotionLabelsApart(p, t, u);
    }
    forall u | u in p.table.motions && u != t
      ensures RepeatLabel(u) != RepeatLabel(t) && AfterLabel(u) != AfterLabel(t)
    {
      SameSuffixApart(p, t, u, "repeat");
      SameSuffixApart(p, t, u, "loop_after");
    }
  }
}

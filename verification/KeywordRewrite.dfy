/**
 The rewriter that makes a Lua keyword usable as a table key: `repeat =` becomes `["repeat"] =`
 (crates/signal-auras-lua/src/runtime.rs:278-347).

 The source is scanned byte by byte and every byte is pushed as a character of its own, so the
 string that comes back is the intended one exactly on ASCII sources.
*/
module KeywordRewrite {
  import opened Wrappers
  import opened Bytes

  predicate IsIdentifier(b: Byte) {
    48 <= b <= 57 || 65 <= b <= 90 || 97 <= b <= 122 || b == 95
  }

  predicate IsWhitespace(b: Byte) {
    b == 32 || b == 9 || b == 10 || b == 12 || b == 13
  }

  predicate IsQuote(b: Byte) {
    b == QUOTE || b == APOSTROPHE
  }

  /** What is passed as a keyword: a Lua word. The one caller passes `repeat`. */
  predicate IsKeyword(keyword: seq<Byte>) {
    keyword != [] && forall i :: 0 <= i < |keyword| ==> IsIdentifier(keyword[i])
  }

  function NextNonWhitespace(rest: seq<Byte>): Option<Byte> {
    if rest == [] then None
    else if IsWhitespace(rest[0]) then NextNonWhitespace(rest[1..])
    else Some(rest[0])
  }

  predicate StartsWith(rest: seq<Byte>, prefix: seq<Byte>) {
    |prefix| <= |rest| && rest[..|prefix|] == prefix
  }

  /** `rest` starts with `word`, which ends there, and the next visible byte is `=`. */
  predicate WordThenEquals(word: seq<Byte>, rest: seq<Byte>) {
    && StartsWith(rest, word)
    && (|rest| > |word| ==> !IsIdentifier(rest[|word|]))
    && NextNonWhitespace(rest[|word|..]) == Some(EQUALS)
  }

  /** A key to rewrite starts here; `after` says that an identifier byte comes just before. */
  predicate KeyHere(keyword: seq<Byte>, after: bool, rest: seq<Byte>) {
    !after && WordThenEquals(keyword, rest)
  }

  function Bracketed(keyword: seq<Byte>): seq<Byte> {
    [OPEN_BRACKET, QUOTE] + keyword + [QUOTE, CLOSE_BRACKET]
  }

  /** The characters that `rest` becomes, inside the string `quote` opened or outside any. */
  function Rewritten(keyword: seq<Byte>, after: bool, rest: seq<Byte>, quote: Option<Byte>): seq<Byte>
    decreases |rest|
  {
    if rest == [] then []
    else if quote.Some? then
      if rest[0] == BACKSLASH && |rest| > 1 then
        rest[..2] + Rewritten(keyword, IsIdentifier(rest[1]), rest[2..], quote)
      else
        [rest[0]] + Rewritten(keyword, IsIdentifier(rest[0]), rest[1..], if rest[0] == quote.value then None else quote)
    else if IsQuote(rest[0]) then
      [rest[0]] + Rewritten(keyword, false, rest[1..], Some(rest[0]))
    else if keyword != [] && KeyHere(keyword, after, rest) then
      Bracketed(keyword) + Rewritten(keyword, true, rest[|keyword|..], None)
    else
      [rest[0]] + Rewritten(keyword, IsIdentifier(rest[0]), rest[1..], None)
  }

  function Rewrite(keyword: seq<Byte>, source: seq<Byte>): seq<Byte> {
    Rewritten(keyword, false, source, None)
  }

  // ---- the scanner ----

  method FindNonWhitespace(bytes: seq<Byte>, start: nat) returns (found: Option<Byte>)
    requires start <= |bytes|
    ensures found == NextNonWhitespace(bytes[start..])
  {
    var index := start;
    while index < |bytes|
      invariant start <= index <= |bytes|
      invariant NextNonWhitespace(bytes[index..]) == NextNonWhitespace(bytes[start..])
    {
      if !IsWhitespace(bytes[index]) {
        return Some(bytes[index]);
      }
      assert bytes[index..][1..] == bytes[index + 1..];
      index := index + 1;
    }
    found := None;
  }

  predicate IdentifierBefore(bytes: seq<Byte>, index: nat)
    requires index <= |bytes|
  {
    index > 0 && IsIdentifier(bytes[index - 1])
  }

  method KeyStartsAt(bytes: seq<Byte>, keyword: seq<Byte>, index: nat) returns (key: bool)
    requires index < |bytes|
    ensures key == KeyHere(keyword, IdentifierBefore(bytes, index), bytes[index..])
  {
    if index + |keyword| > |bytes| {
      return false;
    }
    assert bytes[index..][..|keyword|] == bytes[index..index + |keyword|];
    if bytes[index..index + |keyword|] != keyword {
      return false;
    }
    assert bytes[index..][|keyword|..] == bytes[index + |keyword|..];
    if IdentifierBefore(bytes, index)
       || (index + |keyword| < |bytes| && IsIdentifier(bytes[index + |keyword|])) {
      return false;
    }
    var next := FindNonWhitespace(bytes, index + |keyword|);
    key := next == Some(EQUALS);
  }

  /** `rewrite_lua_keyword_table_key`: one pass over the bytes. */
  method RewriteKeywordTableKey(source: seq<Byte>, keyword: seq<Byte>) returns (output: seq<Byte>)
    requires IsKeyword(keyword)
    ensures output == Rewrite(keyword, source)
  {
    hide KeyHere;
    hide Bracketed;
    output := [];
    var index := 0;
    var quote: Option<Byte> := None;
    while index < |source|
      invariant index <= |source|
      invariant output + Rewritten(keyword, IdentifierBefore(source, index), source[index..], quote)
                == Rewrite(keyword, source)
    {
      ghost var rest := source[index..];
      var byte := source[index];
      assert rest[0] == byte && rest[1..] == source[index + 1..];
      if quote.Some? {
        if byte == BACKSLASH && index + 1 < |source| {
          assert rest[2..] == source[index + 2..] && rest[..2] == [byte, source[index + 1]];
          Regroup(output, [byte, source[index + 1]],
                  Rewritten(keyword, IdentifierBefore(source, index + 2), source[index + 2..], quote));
          output := output + [byte, source[index + 1]];
          index := index + 2;
          continue;
        }
        var still := if byte == quote.value then None else quote;
        Regroup(output, [byte], Rewritten(keyword, IdentifierBefore(source, index + 1), source[index + 1..], still));
        output := output + [byte];
        quote := still;
        index := index + 1;
        continue;
      }
      if IsQuote(byte) {
        Regroup(output, [byte], Rewritten(keyword, false, source[index + 1..], Some(byte)));
        output := output + [byte];
        quote := Some(byte);
        index := index + 1;
        continue;
      }
      var key := KeyStartsAt(source, keyword, index);
      if key {
        KeyLength(keyword, source, index);
        Regroup(output, Bracketed(keyword), Rewritten(keyword, true, source[index + |keyword|..], None));
        output := output + Bracketed(keyword);
        index := index + |keyword|;
        continue;
      }
      Regroup(output, [byte], Rewritten(keyword, IsIdentifier(byte), source[index + 1..], None));
      output := output + [byte];
      index := index + 1;
    }
  }

  lemma Regroup(a: seq<Byte>, b: seq<Byte>, c: seq<Byte>)
    ensures a + (b + c) == a + b + c
  {
  }

  lemma KeyLength(keyword: seq<Byte>, source: seq<Byte>, index: nat)
    requires IsKeyword(keyword) && index < |source|
    requires KeyHere(keyword, IdentifierBefore(source, index), source[index..])
    ensures index + |keyword| <= |source|
    ensures source[index..][|keyword|..] == source[index + |keyword|..]
    ensures IdentifierBefore(source, index + |keyword|)
  {
    var rest := source[index..];
    assert rest[..|keyword|][|keyword| - 1] == source[index + |keyword| - 1];
  }

  // ---- idempotent ----

  /** Rewriting does not change whether the next visible byte is `=`. */
  lemma {:induction false} NextEqualsKept(keyword: seq<Byte>, after: bool, rest: seq<Byte>)
    requires IsKeyword(keyword)
    ensures NextNonWhitespace(Rewritten(keyword, after, rest, None)) == Some(EQUALS) <==>
            NextNonWhitespace(rest) == Some(EQUALS)
    decreases |rest|
  {
    if rest != [] {
      if KeyHere(keyword, after, rest) {
        assert rest[..|keyword|][0] == keyword[0];
        assert IsIdentifier(rest[0]);
      } else {
        CopiesPlain(keyword, after, rest);
        if IsWhitespace(rest[0]) {
          NextEqualsKept(keyword, false, rest[1..]);
        }
      }
    }
  }

  /** A byte that starts no key is copied. */
  lemma CopiesPlain(keyword: seq<Byte>, after: bool, rest: seq<Byte>)
    requires IsKeyword(keyword) && rest != [] && !KeyHere(keyword, after, rest)
    ensures var t := Rewritten(keyword, after, rest, None);
      && t != [] && t[0] == rest[0]
      && (!IsQuote(rest[0]) ==> t[1..] == Rewritten(keyword, IsIdentifier(rest[0]), rest[1..], None))
  {
  }

  lemma KeyStartsWithIdentifier(keyword: seq<Byte>, after: bool, rest: seq<Byte>)
    requires IsKeyword(keyword) && KeyHere(keyword, after, rest)
    ensures rest != [] && IsIdentifier(rest[0])
  {
    assert rest[..|keyword|][0] == keyword[0];
  }

  /** A run of identifier bytes and what follows it survive the rewrite of what comes after one. */
  lemma {:induction false} WordKept(keyword: seq<Byte>, word: seq<Byte>, rest: seq<Byte>)
    requires IsKeyword(keyword)
    requires forall i :: 0 <= i < |word| ==> IsIdentifier(word[i])
    ensures WordThenEquals(word, Rewritten(keyword, true, rest, None)) <==> WordThenEquals(word, rest)
    decreases |rest|
  {
    var t := Rewritten(keyword, true, rest, None);
    if rest != [] {
      CopiesPlain(keyword, true, rest);
      if word == [] {
        NextEqualsKept(keyword, true, rest);
        assert t[0..] == t && rest[0..] == rest;
      } else if word[0] == rest[0] {
        WordKept(keyword, word[1..], rest[1..]);
        WordCons(word, t);
        WordCons(word, rest);
      }
    }
  }

  lemma WordCons(word: seq<Byte>, rest: seq<Byte>)
    requires word != [] && rest != [] && word[0] == rest[0]
    ensures WordThenEquals(word, rest) <==> WordThenEquals(word[1..], rest[1..])
  {
    if |word| <= |rest| {
      assert rest[|word|..] == rest[1..][|word[1..]|..];
      assert rest[..|word|] == [rest[0]] + rest[1..][..|word[1..]|];
      assert word == [word[0]] + word[1..];
    }
  }

  lemma InStringStep(keyword: seq<Byte>, b: Byte, rest: seq<Byte>, after: bool)
    requires b != BACKSLASH
    ensures Rewritten(keyword, after, [b] + rest, Some(QUOTE)) ==
      [b] + Rewritten(keyword, IsIdentifier(b), rest, if b == QUOTE then None else Some(QUOTE))
  {
    hide KeyHere;
    assert ([b] + rest)[1..] == rest;
  }

  lemma BracketStep(keyword: seq<Byte>, b: Byte, rest: seq<Byte>, after: bool)
    requires IsKeyword(keyword) && !IsIdentifier(b)
    ensures Rewritten(keyword, after, [b] + rest, None) ==
      [b] + Rewritten(keyword, false, rest, if IsQuote(b) then Some(b) else None)
  {
    var s := [b] + rest;
    assert s[1..] == rest;
    if KeyHere(keyword, after, s) {
      KeyStartsWithIdentifier(keyword, after, s);
    }
  }

  /** Identifier bytes inside a string are copied. */
  lemma {:induction false} CopiesWordInString(keyword: seq<Byte>, word: seq<Byte>, rest: seq<Byte>, after: bool)
    requires forall i :: 0 <= i < |word| ==> IsIdentifier(word[i])
    ensures Rewritten(keyword, after, word + [QUOTE] + rest, Some(QUOTE)) ==
      word + [QUOTE] + Rewritten(keyword, false, rest, None)
    decreases |word|
  {
    hide Rewritten;
    if word == [] {
      InStringStep(keyword, QUOTE, rest, after);
      assert [] + [QUOTE] + rest == [QUOTE] + rest;
    } else {
      var tail := word[1..] + [QUOTE] + rest;
      InStringStep(keyword, word[0], tail, after);
      CopiesWordInString(keyword, word[1..], rest, IsIdentifier(word[0]));
      assert word + [QUOTE] + rest == [word[0]] + tail;
      assert word == [word[0]] + word[1..];
    }
  }

  /** A key already in brackets is copied. */
  lemma CopiesBracketed(keyword: seq<Byte>, after: bool, rest: seq<Byte>)
    requires IsKeyword(keyword)
    ensures Rewritten(keyword, after, Bracketed(keyword) + rest, None) ==
      Bracketed(keyword) + Rewritten(keyword, false, rest, None)
  {
    hide Rewritten;
    var last := [CLOSE_BRACKET] + rest;
    var inner := keyword + [QUOTE] + last;
    assert Bracketed(keyword) + rest == [OPEN_BRACKET] + ([QUOTE] + inner);
    BracketStep(keyword, OPEN_BRACKET, [QUOTE] + inner, after);
    BracketStep(keyword, QUOTE, inner, false);
    CopiesWordInString(keyword, keyword, last, false);
    BracketStep(keyword, CLOSE_BRACKET, rest, false);
  }

  /** The byte before makes no difference to what starts with no identifier byte. */
  predicate BeforeIrrelevant(a: bool, b: bool, rest: seq<Byte>) {
    a == b || rest == [] || !IsIdentifier(rest[0])
  }

  lemma KeyBecomes(keyword: seq<Byte>, after: bool, rest: seq<Byte>)
    requires IsKeyword(keyword) && KeyHere(keyword, after, rest)
    ensures Rewritten(keyword, after, rest, None) ==
      Bracketed(keyword) + Rewritten(keyword, true, rest[|keyword|..], None)
  {
    KeyStartsWithIdentifier(keyword, after, rest);
  }

  /** Rewriting what was rewritten changes nothing more. */
  lemma {:induction false} RewrittenTwice(keyword: seq<Byte>, a: bool, b: bool, rest: seq<Byte>, quote: Option<Byte>)
    requires IsKeyword(keyword) && BeforeIrrelevant(a, b, rest)
    ensures var t := Rewritten(keyword, b, rest, quote); Rewritten(keyword, a, t, quote) == t
    decreases |rest|
  {
    var t := Rewritten(keyword, b, rest, quote);
    if rest == [] {
    } else if quote.Some? {
      hide KeyHere;
      if rest[0] == BACKSLASH && |rest| > 1 {
        RewrittenTwice(keyword, IsIdentifier(rest[1]), IsIdentifier(rest[1]), rest[2..], quote);
        assert t[2..] == Rewritten(keyword, IsIdentifier(rest[1]), rest[2..], quote);
      } else {
        var still := if rest[0] == quote.value then None else quote;
        RewrittenTwice(keyword, IsIdentifier(rest[0]), IsIdentifier(rest[0]), rest[1..], still);
        assert t[1..] == Rewritten(keyword, IsIdentifier(rest[0]), rest[1..], still);
      }
    } else if IsQuote(rest[0]) {
      hide KeyHere;
      RewrittenTwice(keyword, false, false, rest[1..], Some(rest[0]));
      assert t[1..] == Rewritten(keyword, false, rest[1..], Some(rest[0]));
    } else if KeyHere(keyword, b, rest) {
      KeyBecomes(keyword, b, rest);
      RewrittenTwice(keyword, false, true, rest[|keyword|..], None);
      CopiesBracketed(keyword, a, Rewritten(keyword, true, rest[|keyword|..], None));
    } else {
      PlainTwice(keyword, a, b, rest);
      RewrittenTwice(keyword, IsIdentifier(rest[0]), IsIdentifier(rest[0]), rest[1..], None);
    }
  }

  /** A copied byte starts no key in the rewritten text either. */
  lemma PlainTwice(keyword: seq<Byte>, a: bool, b: bool, rest: seq<Byte>)
    requires IsKeyword(keyword) && BeforeIrrelevant(a, b, rest)
    requires rest != [] && !IsQuote(rest[0]) && !KeyHere(keyword, b, rest)
    ensures var t, u := Rewritten(keyword, b, rest, None), Rewritten(keyword, IsIdentifier(rest[0]), rest[1..], None);
      && t == [rest[0]] + u
      && Rewritten(keyword, a, t, None) == [rest[0]] + Rewritten(keyword, IsIdentifier(rest[0]), u, None)
  {
    var u := Rewritten(keyword, IsIdentifier(rest[0]), rest[1..], None);
    var t := [rest[0]] + u;
    assert t[1..] == u;
    if KeyHere(keyword, a, t) {
      KeyStartsWithIdentifier(keyword, a, t);
      assert t[..|keyword|][0] == keyword[0];
      WordCons(keyword, t);
      WordCons(keyword, rest);
      WordKept(keyword, keyword[1..], rest[1..]);
    }
  }

  // ---- reversible ----

  /** Takes the brackets and quotes off every bracketed keyword outside strings. */
  function Unbracketed(keyword: seq<Byte>, text: seq<Byte>, quote: Option<Byte>): seq<Byte>
    decreases |text|
  {
    if text == [] then []
    else if quote.Some? then
      if text[0] == BACKSLASH && |text| > 1 then text[..2] + Unbracketed(keyword, text[2..], quote)
      else [text[0]] + Unbracketed(keyword, text[1..], if text[0] == quote.value then None else quote)
    else if IsQuote(text[0]) then [text[0]] + Unbracketed(keyword, text[1..], Some(text[0]))
    else if StartsWith(text, Bracketed(keyword)) then
      keyword + Unbracketed(keyword, text[|Bracketed(keyword)|..], None)
    else [text[0]] + Unbracketed(keyword, text[1..], None)
  }

  /** Somewhere outside its strings, the text already has the keyword in brackets and quotes. */
  predicate HasBracketed(keyword: seq<Byte>, text: seq<Byte>, quote: Option<Byte>)
    decreases |text|
  {
    if text == [] then false
    else if quote.Some? then
      if text[0] == BACKSLASH && |text| > 1 then HasBracketed(keyword, text[2..], quote)
      else HasBracketed(keyword, text[1..], if text[0] == quote.value then None else quote)
    else if IsQuote(text[0]) then HasBracketed(keyword, text[1..], Some(text[0]))
    else StartsWith(text, Bracketed(keyword)) || HasBracketed(keyword, text[1..], None)
  }

  /** Text inside a string that spells a word, the closing quote and a bracket was spelled so before. */
  lemma {:induction false} SpelledInString(keyword: seq<Byte>, word: seq<Byte>, after: bool, rest: seq<Byte>)
    requires IsKeyword(keyword)
    requires forall i :: 0 <= i < |word| ==> IsIdentifier(word[i])
    ensures var spelled := word + [QUOTE, CLOSE_BRACKET];
      StartsWith(Rewritten(keyword, after, rest, Some(QUOTE)), spelled) ==> StartsWith(rest, spelled)
    decreases |word|
  {
    var spelled := word + [QUOTE, CLOSE_BRACKET];
    var t := Rewritten(keyword, after, rest, Some(QUOTE));
    if StartsWith(t, spelled) && rest != [] {
      assert t[0] == spelled[0] == rest[0];
      if word == [] {
        var u := Rewritten(keyword, false, rest[1..], None);
        assert t == [QUOTE] + u;
        assert u[0] == t[1] == t[..2][1] == CLOSE_BRACKET;
        FirstKept(keyword, false, rest[1..]);
        assert rest[..2] == spelled;
      } else {
        assert t == [rest[0]] + Rewritten(keyword, true, rest[1..], Some(QUOTE));
        StartsCons(t, spelled);
        assert spelled[1..] == word[1..] + [QUOTE, CLOSE_BRACKET];
        SpelledInString(keyword, word[1..], true, rest[1..]);
        StartsCons(rest, spelled);
      }
    }
  }

  lemma FirstKept(keyword: seq<Byte>, after: bool, rest: seq<Byte>)
    requires IsKeyword(keyword) && rest != []
    ensures var t := Rewritten(keyword, after, rest, None);
      t != [] && (t[0] != OPEN_BRACKET ==> t[0] == rest[0])
  {
  }

  lemma StartsCons(text: seq<Byte>, prefix: seq<Byte>)
    requires text != [] && prefix != [] && text[0] == prefix[0]
    ensures StartsWith(text, prefix) <==> StartsWith(text[1..], prefix[1..])
  {
    if |prefix| <= |text| {
      assert text[..|prefix|] == [text[0]] + text[1..][..|prefix[1..]|];
      assert prefix == [prefix[0]] + prefix[1..];
    }
  }

  lemma {:induction false} WordUnchanged(keyword: seq<Byte>, word: seq<Byte>, rest: seq<Byte>)
    requires forall i :: 0 <= i < |word| ==> IsIdentifier(word[i])
    ensures Unbracketed(keyword, word + rest, None) == word + Unbracketed(keyword, rest, None)
    decreases |word|
  {
    if word == [] {
      assert word + rest == rest;
    } else {
      var s := word + rest;
      if |Bracketed(keyword)| <= |s| {
        assert s[..|Bracketed(keyword)|][0] != Bracketed(keyword)[0];
      }
      WordUnchanged(keyword, word[1..], rest);
      assert s[1..] == word[1..] + rest;
      assert word == [word[0]] + word[1..];
    }
  }

  lemma BracketedUndone(keyword: seq<Byte>, rest: seq<Byte>)
    ensures Unbracketed(keyword, Bracketed(keyword) + rest, None) == keyword + Unbracketed(keyword, rest, None)
  {
    var s := Bracketed(keyword) + rest;
    assert s[..|Bracketed(keyword)|] == Bracketed(keyword) && s[|Bracketed(keyword)|..] == rest;
  }

  /** A bracketed keyword starts the rewritten text only where it starts the source. */
  lemma BracketedWasThere(keyword: seq<Byte>, after: bool, rest: seq<Byte>)
    requires IsKeyword(keyword) && rest != [] && !IsQuote(rest[0]) && !KeyHere(keyword, after, rest)
    requires StartsWith(Rewritten(keyword, after, rest, None), Bracketed(keyword))
    ensures StartsWith(rest, Bracketed(keyword))
  {
    var t, u := Rewritten(keyword, after, rest, None), Rewritten(keyword, false, rest[1..], None);
    var spelled := keyword + [QUOTE, CLOSE_BRACKET];
    CopiesPlain(keyword, after, rest);
    assert t[..|Bracketed(keyword)|][0] == OPEN_BRACKET;
    StartsCons(t, Bracketed(keyword));
    assert Bracketed(keyword)[1..] == [QUOTE] + spelled;
    assert u[..|spelled| + 1][0] == QUOTE;
    FirstKept(keyword, false, rest[1..]);
    assert u == [QUOTE] + Rewritten(keyword, false, rest[1..][1..], Some(QUOTE));
    StartsCons(u, [QUOTE] + spelled);
    assert ([QUOTE] + spelled)[1..] == spelled;
    SpelledInString(keyword, keyword, false, rest[1..][1..]);
    StartsCons(rest[1..], [QUOTE] + spelled);
    StartsCons(rest, Bracketed(keyword));
  }

  lemma SplitBracketed(keyword: seq<Byte>, rest: seq<Byte>)
    requires StartsWith(rest, Bracketed(keyword))
    ensures rest == Bracketed(keyword) + rest[|Bracketed(keyword)|..]
  {
  }

  /** All that the rewrite adds is what taking the brackets off removes. */
  lemma {:induction false} UnbracketedAgree(keyword: seq<Byte>, after: bool, rest: seq<Byte>, quote: Option<Byte>)
    requires IsKeyword(keyword)
    ensures Unbracketed(keyword, Rewritten(keyword, after, rest, quote), quote) == Unbracketed(keyword, rest, quote)
    decreases |rest|
  {
    var t := Rewritten(keyword, after, rest, quote);
    if rest == [] {
    } else if quote.Some? {
      hide KeyHere;
      if rest[0] == BACKSLASH && |rest| > 1 {
        UnbracketedAgree(keyword, IsIdentifier(rest[1]), rest[2..], quote);
        assert t[2..] == Rewritten(keyword, IsIdentifier(rest[1]), rest[2..], quote) && t[..2] == rest[..2];
      } else {
        var still := if rest[0] == quote.value then None else quote;
        UnbracketedAgree(keyword, IsIdentifier(rest[0]), rest[1..], still);
        assert t[1..] == Rewritten(keyword, IsIdentifier(rest[0]), rest[1..], still);
      }
    } else if IsQuote(rest[0]) {
      hide KeyHere;
      UnbracketedAgree(keyword, false, rest[1..], Some(rest[0]));
      assert t[1..] == Rewritten(keyword, false, rest[1..], Some(rest[0]));
    } else if KeyHere(keyword, after, rest) {
      var tail := rest[|keyword|..];
      KeyBecomes(keyword, after, rest);
      BracketedUndone(keyword, Rewritten(keyword, true, tail, None));
      UnbracketedAgree(keyword, true, tail, None);
      WordUnchanged(keyword, keyword, tail);
      assert rest == keyword + tail;
    } else {
      UnbracketedAgreePlain(keyword, after, rest);
    }
  }

  lemma UnbracketedAgreePlain(keyword: seq<Byte>, after: bool, rest: seq<Byte>)
    requires IsKeyword(keyword) && rest != [] && !IsQuote(rest[0]) && !KeyHere(keyword, after, rest)
    ensures Unbracketed(keyword, Rewritten(keyword, after, rest, None), None) == Unbracketed(keyword, rest, None)
    decreases |rest|, 0
  {
    var t := Rewritten(keyword, after, rest, None);
    if StartsWith(rest, Bracketed(keyword)) {
      var tail := rest[|Bracketed(keyword)|..];
      SplitBracketed(keyword, rest);
      CopiesBracketed(keyword, after, tail);
      BracketedUndone(keyword, tail);
      BracketedUndone(keyword, Rewritten(keyword, false, tail, None));
      UnbracketedAgree(keyword, false, tail, None);
    } else {
      if StartsWith(t, Bracketed(keyword)) {
        BracketedWasThere(keyword, after, rest);
      }
      CopiesPlain(keyword, after, rest);
      UnbracketedAgree(keyword, IsIdentifier(rest[0]), rest[1..], None);
    }
  }

  /** Taking the brackets off leaves a text alone exactly when it has none to take. */
  lemma {:induction false} UnbracketedIff(keyword: seq<Byte>, text: seq<Byte>, quote: Option<Byte>)
    ensures |Unbracketed(keyword, text, quote)| <= |text|
    ensures HasBracketed(keyword, text, quote) ==> |Unbracketed(keyword, text, quote)| < |text|
    ensures !HasBracketed(keyword, text, quote) ==> Unbracketed(keyword, text, quote) == text
    decreases |text|
  {
    if text == [] {
    } else if quote.Some? {
      if text[0] == BACKSLASH && |text| > 1 {
        UnbracketedIff(keyword, text[2..], quote);
        assert text == text[..2] + text[2..];
      } else {
        UnbracketedIff(keyword, text[1..], if text[0] == quote.value then None else quote);
      }
    } else if IsQuote(text[0]) {
      UnbracketedIff(keyword, text[1..], Some(text[0]));
    } else if StartsWith(text, Bracketed(keyword)) {
      UnbracketedIff(keyword, text[|Bracketed(keyword)|..], None);
    } else {
      UnbracketedIff(keyword, text[1..], None);
    }
  }

  /** Among the pushed characters: taking the brackets off restores the source when it had none of its own. */
  lemma CharactersRestoredIff(keyword: seq<Byte>, source: seq<Byte>)
    requires IsKeyword(keyword)
    ensures Unbracketed(keyword, Rewrite(keyword, source), None) == source <==> !HasBracketed(keyword, source, None)
  {
    UnbracketedAgree(keyword, false, source, None);
    UnbracketedIff(keyword, source, None);
  }

  // ---- which bytes are touched ----

  /** Where a byte stands, read byte by byte: outside strings, in one, or after a backslash in one. */
  datatype Place = Plain | InString(quote: Byte) | Escaped(quote: Byte)

  function Next(place: Place, b: Byte): Place {
    match place
    case Plain => if IsQuote(b) then InString(b) else Plain
    case InString(quote) => if b == BACKSLASH then Escaped(quote) else if b == quote then Plain else place
    case Escaped(quote) => InString(quote)
  }

  function PlaceOf(source: seq<Byte>, i: nat): Place
    requires i <= |source|
  {
    if i == 0 then Plain else Next(PlaceOf(source, i - 1), source[i - 1])
  }

  /** A key to rewrite is the keyword, as a word of its own, outside strings and followed by `=`. */
  predicate KeyAt(keyword: seq<Byte>, source: seq<Byte>, i: nat)
    requires i < |source|
  {
    PlaceOf(source, i) == Plain && KeyHere(keyword, IdentifierBefore(source, i), source[i..])
  }

  /** A byte with what is inserted before a key that starts at it and after a key that ends with it. */
  function Around(keyword: seq<Byte>, source: seq<Byte>, i: nat): seq<Byte>
    requires i < |source|
  {
    (if KeyAt(keyword, source, i) then [OPEN_BRACKET, QUOTE] else [])
    + [source[i]]
    + (if 0 <= i + 1 - |keyword| < |source| && KeyAt(keyword, source, i + 1 - |keyword|)
       then [QUOTE, CLOSE_BRACKET] else [])
  }

  function Inserted(keyword: seq<Byte>, source: seq<Byte>, n: nat): seq<Byte>
    requires n <= |source|
  {
    if n == 0 then [] else Inserted(keyword, source, n - 1) + Around(keyword, source, n - 1)
  }

  /** No key reaches over position `n`. */
  ghost predicate Clear(keyword: seq<Byte>, source: seq<Byte>, n: nat) {
    forall k :: 0 <= k < n && k < |source| && KeyAt(keyword, source, k) ==> k + |keyword| <= n
  }

  lemma KeySpells(keyword: seq<Byte>, source: seq<Byte>, k: nat)
    requires IsKeyword(keyword) && k < |source| && KeyAt(keyword, source, k)
    ensures k + |keyword| <= |source|
    ensures forall m :: k <= m < k + |keyword| ==> source[m] == keyword[m - k]
    ensures k + |keyword| < |source| ==> !IsIdentifier(source[k + |keyword|])
  {
    var rest := source[k..];
    forall m | k <= m < k + |keyword| ensures source[m] == keyword[m - k] {
      assert source[m] == rest[m - k] == rest[..|keyword|][m - k];
    }
  }

  lemma NoKeyInside(keyword: seq<Byte>, source: seq<Byte>, k: nat, j: nat)
    requires IsKeyword(keyword) && k < |source| && KeyAt(keyword, source, k)
    requires k < j < k + |keyword| && j < |source|
    ensures !KeyAt(keyword, source, j)
  {
    KeySpells(keyword, source, k);
    assert IdentifierBefore(source, j);
  }

  /** Over the bytes of a key, only its two ends are touched. */
  lemma {:induction false} KeyInserted(keyword: seq<Byte>, source: seq<Byte>, k: nat, m: nat)
    requires IsKeyword(keyword) && k < |source| && KeyAt(keyword, source, k)
    requires 0 < m <= |keyword| && k + m <= |source|
    ensures Inserted(keyword, source, k + m) == Inserted(keyword, source, k) + [OPEN_BRACKET, QUOTE] + keyword[..m]
            + if m == |keyword| then [QUOTE, CLOSE_BRACKET] else []
    ensures PlaceOf(source, k + m) == Plain
    decreases m
  {
    hide KeyAt;
    KeySpells(keyword, source, k);
    if m == 1 {
      KeyIsPlain(keyword, source, k);
      KeyEndsOnce(keyword, source, k, 0);
      assert keyword[..1] == [keyword[0]];
    } else {
      KeyInserted(keyword, source, k, m - 1);
      NoKeyInside(keyword, source, k, k + m - 1);
      KeyEndsOnce(keyword, source, k, m - 1);
      assert keyword[..m] == keyword[..m - 1] + [keyword[m - 1]];
    }
  }

  lemma KeyIsPlain(keyword: seq<Byte>, source: seq<Byte>, k: nat)
    requires k < |source| && KeyAt(keyword, source, k)
    ensures PlaceOf(source, k) == Plain
  {
  }

  /** The byte `m` places into a key is the end of a key exactly when it is the end of this one. */
  lemma KeyEndsOnce(keyword: seq<Byte>, source: seq<Byte>, k: nat, m: nat)
    requires IsKeyword(keyword) && k < |source| && KeyAt(keyword, source, k) && m < |keyword|
    requires k + m < |source|
    ensures var e := k + m + 1 - |keyword|;
      0 <= e < |source| && KeyAt(keyword, source, e) <==> m == |keyword| - 1
  {
    var e := k + m + 1 - |keyword|;
    if m < |keyword| - 1 && 0 <= e {
      KeySpells(keyword, source, k);
      if KeyAt(keyword, source, e) {
        KeySpells(keyword, source, e);
      }
    }
  }

  function Quoted(place: Place): Option<Byte> {
    if place.Plain? then None else Some(place.quote)
  }

  /** From every place where the scanner stops, the rest comes out as the positions say. */
  lemma {:induction false} PositionsAgree(keyword: seq<Byte>, source: seq<Byte>, i: nat)
    requires IsKeyword(keyword) && i <= |source|
    requires !PlaceOf(source, i).Escaped? && Clear(keyword, source, i)
    ensures Inserted(keyword, source, i)
            + Rewritten(keyword, IdentifierBefore(source, i), source[i..], Quoted(PlaceOf(source, i)))
            == Inserted(keyword, source, |source|)
    decreases |source| - i
  {
    hide Rewritten;
    hide KeyAt;
    hide Inserted;
    hide Clear;
    if i == |source| {
      assert source[i..] == [];
      NothingLeft(keyword, IdentifierBefore(source, i), Quoted(PlaceOf(source, i)));
    } else if KeyAt(keyword, source, i) {
      StepOverKey(keyword, source, i);
      PositionsAgree(keyword, source, i + |keyword|);
    } else {
      StepOverByte(keyword, source, i);
      if EscapePair(source, i) {
        EscapedHasNoKey(keyword, source, i + 1);
        StepOverByte(keyword, source, i + 1);
        PairRewritten(keyword, source, i);
        PositionsAgree(keyword, source, i + 2);
      } else {
        ByteRewritten(keyword, source, i);
        if i + 1 < |source| {
          PositionsAgree(keyword, source, i + 1);
        } else {
          assert source[i + 1..] == [];
          NothingLeft(keyword, IdentifierBefore(source, i + 1), QuotedAfter(source, i));
        }
      }
    }
  }

  lemma NothingLeft(keyword: seq<Byte>, after: bool, quote: Option<Byte>)
    ensures Rewritten(keyword, after, [], quote) == []
  {
  }

  /** A backslash in a string, with a byte after it. */
  predicate EscapePair(source: seq<Byte>, i: nat)
    requires i < |source|
  {
    PlaceOf(source, i).InString? && source[i] == BACKSLASH && i + 1 < |source|
  }

  /** The string the scanner is in after byte `i`; a backslash that ends the source leaves it as it was. */
  function QuotedAfter(source: seq<Byte>, i: nat): Option<Byte>
    requires i < |source|
  {
    Quoted(PlaceOf(source, i + 1))
  }

  lemma PairRewritten(keyword: seq<Byte>, source: seq<Byte>, i: nat)
    requires i < |source| && EscapePair(source, i)
    ensures PlaceOf(source, i + 2) == PlaceOf(source, i)
    ensures Rewritten(keyword, IdentifierBefore(source, i), source[i..], Quoted(PlaceOf(source, i))) ==
      [source[i]] + [source[i + 1]]
      + Rewritten(keyword, IdentifierBefore(source, i + 2), source[i + 2..], Quoted(PlaceOf(source, i)))
  {
    var rest := source[i..];
    assert rest[0] == source[i] && rest[1] == source[i + 1];
    assert rest[2..] == source[i + 2..] && rest[..2] == [source[i]] + [source[i + 1]];
  }

  lemma ByteRewritten(keyword: seq<Byte>, source: seq<Byte>, i: nat)
    requires i < |source| && !PlaceOf(source, i).Escaped?
    requires !KeyAt(keyword, source, i) && !EscapePair(source, i)
    ensures i + 1 < |source| ==> !PlaceOf(source, i + 1).Escaped?
    ensures Rewritten(keyword, IdentifierBefore(source, i), source[i..], Quoted(PlaceOf(source, i))) ==
      [source[i]] + Rewritten(keyword, IdentifierBefore(source, i + 1), source[i + 1..], QuotedAfter(source, i))
  {
    hide KeyHere;
    var rest := source[i..];
    assert rest[0] == source[i] && rest[1..] == source[i + 1..];
    KeyAtMeans(keyword, source, i);
  }

  lemma KeyAtMeans(keyword: seq<Byte>, source: seq<Byte>, i: nat)
    requires i < |source|
    ensures KeyAt(keyword, source, i) <==>
      PlaceOf(source, i) == Plain && KeyHere(keyword, IdentifierBefore(source, i), source[i..])
  {
  }

  lemma EscapedHasNoKey(keyword: seq<Byte>, source: seq<Byte>, i: nat)
    requires i < |source| && PlaceOf(source, i) != Plain
    ensures !KeyAt(keyword, source, i)
  {
  }

  lemma StepOverByte(keyword: seq<Byte>, source: seq<Byte>, i: nat)
    requires IsKeyword(keyword) && i < |source| && Clear(keyword, source, i) && !KeyAt(keyword, source, i)
    ensures Inserted(keyword, source, i + 1) == Inserted(keyword, source, i) + [source[i]]
    ensures Clear(keyword, source, i + 1)
  {
    hide KeyAt;
  }

  lemma StepOverKey(keyword: seq<Byte>, source: seq<Byte>, i: nat)
    requires IsKeyword(keyword) && i < |source| && Clear(keyword, source, i) && KeyAt(keyword, source, i)
    ensures i + |keyword| <= |source| && PlaceOf(source, i) == PlaceOf(source, i + |keyword|) == Plain
    ensures Clear(keyword, source, i + |keyword|)
    ensures Inserted(keyword, source, i + |keyword|) == Inserted(keyword, source, i) + Bracketed(keyword)
    ensures Rewritten(keyword, IdentifierBefore(source, i), source[i..], None) ==
      Bracketed(keyword) + Rewritten(keyword, IdentifierBefore(source, i + |keyword|), source[i + |keyword|..], None)
  {
    hide *;
    KeyWordInserted(keyword, source, i);
    KeyWordRewritten(keyword, source, i);
    ClearAfterKey(keyword, source, i);
  }

  lemma KeyWordInserted(keyword: seq<Byte>, source: seq<Byte>, i: nat)
    requires IsKeyword(keyword) && i < |source| && KeyAt(keyword, source, i)
    ensures i + |keyword| <= |source| && PlaceOf(source, i + |keyword|) == Plain
    ensures Inserted(keyword, source, i + |keyword|) == Inserted(keyword, source, i) + Bracketed(keyword)
  {
    hide KeyAt;
    hide Inserted;
    KeySpells(keyword, source, i);
    KeyInserted(keyword, source, i, |keyword|);
    assert keyword[..|keyword|] == keyword;
  }

  lemma KeyWordRewritten(keyword: seq<Byte>, source: seq<Byte>, i: nat)
    requires IsKeyword(keyword) && i < |source| && KeyAt(keyword, source, i)
    ensures i + |keyword| <= |source| && PlaceOf(source, i) == Plain
    ensures Rewritten(keyword, IdentifierBefore(source, i), source[i..], None) ==
      Bracketed(keyword) + Rewritten(keyword, IdentifierBefore(source, i + |keyword|), source[i + |keyword|..], None)
  {
    hide KeyHere;
    hide Rewritten;
    KeyLength(keyword, source, i);
    KeyBecomes(keyword, IdentifierBefore(source, i), source[i..]);
  }

  lemma ClearAfterKey(keyword: seq<Byte>, source: seq<Byte>, i: nat)
    requires IsKeyword(keyword) && i < |source| && Clear(keyword, source, i) && KeyAt(keyword, source, i)
    ensures Clear(keyword, source, i + |keyword|)
  {
    hide KeyAt;
    forall k | 0 <= k < i + |keyword| && k < |source| && KeyAt(keyword, source, k)
      ensures k + |keyword| <= i + |keyword|
    {
      if i < k {
        NoKeyInside(keyword, source, i, k);
      }
    }
  }

  /**
   The pushed characters are the bytes of the source with a bracket and a quote around every keyword
   that stands outside strings as a word of its own before `=`, and nothing else: every other byte, and
   so every byte of a quoted string with its escapes, is pushed once.
  */
  lemma RewritesExactlyKeys(keyword: seq<Byte>, source: seq<Byte>)
    requires IsKeyword(keyword)
    ensures Rewrite(keyword, source) == Inserted(keyword, source, |source|)
  {
    hide Rewritten;
    hide KeyAt;
    hide Around;
    PositionsAgree(keyword, source, 0);
    assert source[0..] == source;
    assert [] + Rewritten(keyword, false, source, None) == Rewritten(keyword, false, source, None);
  }

  // ---- the string that comes back ----

  /** The UTF-8 bytes of characters below 256, as RFC 3629, section 3, encodes them. */
  function Utf8(chars: seq<Byte>): seq<Byte> {
    if chars == [] then []
    else (if chars[0] < 128 then [chars[0]] else [192 + chars[0] / 64, 128 + chars[0] % 64]) + Utf8(chars[1..])
  }

  /** The bytes of the returned string: each byte was pushed as a character. */
  function Returned(keyword: seq<Byte>, source: seq<Byte>): seq<Byte> {
    Utf8(Rewrite(keyword, source))
  }

  lemma {:induction false} Utf8Length(chars: seq<Byte>)
    ensures |Utf8(chars)| >= |chars|
    ensures !Ascii(chars) ==> |Utf8(chars)| > |chars| && !Ascii(Utf8(chars))
    ensures Ascii(chars) ==> Utf8(chars) == chars
  {
    if chars != [] {
      Utf8Length(chars[1..]);
      assert chars == [chars[0]] + chars[1..];
      AsciiCons([chars[0]], chars[1..]);
      AsciiCons(if chars[0] < 128 then [chars[0]] else [192 + chars[0] / 64, 128 + chars[0] % 64], Utf8(chars[1..]));
    }
  }

  lemma AsciiCons(a: seq<Byte>, b: seq<Byte>)
    ensures Ascii(a + b) <==> Ascii(a) && Ascii(b)
  {
    if Ascii(a + b) {
      forall i | 0 <= i < |a| ensures a[i] < 128 {
        assert (a + b)[i] == a[i];
      }
      forall i | 0 <= i < |b| ensures b[i] < 128 {
        assert (a + b)[|a| + i] == b[i];
      }
    }
  }

  lemma BracketsAreAscii(keyword: seq<Byte>)
    requires IsKeyword(keyword)
    ensures Ascii(keyword) && Ascii(Bracketed(keyword))
  {
  }

  /** The rewrite adds ASCII only and drops nothing. */
  lemma {:induction false} RewriteLength(keyword: seq<Byte>, after: bool, rest: seq<Byte>, quote: Option<Byte>)
    requires IsKeyword(keyword)
    ensures |Rewritten(keyword, after, rest, quote)| >= |rest|
    ensures Ascii(Rewritten(keyword, after, rest, quote)) <==> Ascii(rest)
    decreases |rest|
  {
    if rest == [] {
    } else if quote.Some? && rest[0] == BACKSLASH && |rest| > 1 {
      RewriteLength(keyword, IsIdentifier(rest[1]), rest[2..], quote);
      AsciiCons(rest[..2], rest[2..]);
      AsciiCons(rest[..2], Rewritten(keyword, IsIdentifier(rest[1]), rest[2..], quote));
      assert rest == rest[..2] + rest[2..];
    } else if quote.None? && !IsQuote(rest[0]) && KeyHere(keyword, after, rest) {
      hide KeyHere;
      var tail := rest[|keyword|..];
      KeyBecomes(keyword, after, rest);
      RewriteLength(keyword, true, tail, None);
      AsciiCons(keyword, tail);
      AsciiCons(Bracketed(keyword), Rewritten(keyword, true, tail, None));
      BracketsAreAscii(keyword);
      assert rest == keyword + tail;
    } else {
      hide KeyHere;
      var still := if quote.Some? then (if rest[0] == quote.value then None else quote)
                   else if IsQuote(rest[0]) then Some(rest[0]) else None;
      var tail := Rewritten(keyword, IsIdentifier(rest[0]), rest[1..], still);
      RewriteLength(keyword, IsIdentifier(rest[0]), rest[1..], still);
      AsciiCons([rest[0]], rest[1..]);
      AsciiCons([rest[0]], tail);
      assert rest == [rest[0]] + rest[1..];
    }
  }

  /** The returned string has the intended bytes exactly when the source is ASCII. */
  lemma ReturnedIffAscii(keyword: seq<Byte>, source: seq<Byte>)
    requires IsKeyword(keyword)
    ensures Returned(keyword, source) == Rewrite(keyword, source) <==> Ascii(source)
  {
    RewriteLength(keyword, false, source, None);
    Utf8Length(Rewrite(keyword, source));
  }

  /** Rewriting a second time changes nothing exactly when the source is ASCII. */
  lemma IdempotentIffAscii(keyword: seq<Byte>, source: seq<Byte>)
    requires IsKeyword(keyword)
    ensures Returned(keyword, Returned(keyword, source)) == Returned(keyword, source) <==> Ascii(source)
  {
    var once := Returned(keyword, source);
    RewriteLength(keyword, false, source, None);
    Utf8Length(Rewrite(keyword, source));
    RewriteLength(keyword, false, once, None);
    Utf8Length(Rewrite(keyword, once));
    if Ascii(source) {
      RewrittenTwice(keyword, false, false, source, None);
    }
  }

  /**
   The returned string is the source with its keys bracketed and all else copied, quoted strings
   included, exactly when the source is ASCII.
  */
  lemma ReturnsExactlyKeysIffAscii(keyword: seq<Byte>, source: seq<Byte>)
    requires IsKeyword(keyword)
    ensures Returned(keyword, source) == Inserted(keyword, source, |source|) <==> Ascii(source)
  {
    RewritesExactlyKeys(keyword, source);
    ReturnedIffAscii(keyword, source);
  }

  /** How many bytes are not ASCII. */
  function Wide(text: seq<Byte>): nat {
    if text == [] then 0 else (if text[0] >= 128 then 1 else 0) + Wide(text[1..])
  }

  lemma {:induction false} WideAppend(a: seq<Byte>, b: seq<Byte>)
    ensures Wide(a + b) == Wide(a) + Wide(b)
  {
    if a == [] {
      assert a + b == b;
    } else {
      WideAppend(a[1..], b);
      assert (a + b)[1..] == a[1..] + b;
    }
  }

  lemma {:induction false} WideMeaning(text: seq<Byte>)
    ensures Wide(text) == 0 <==> Ascii(text)
  {
    if text != [] {
      WideMeaning(text[1..]);
      AsciiCons([text[0]], text[1..]);
      assert text == [text[0]] + text[1..];
    }
  }

  /** Encoding doubles the bytes that are not ASCII. */
  lemma {:induction false} Utf8DoublesWide(chars: seq<Byte>)
    ensures Wide(Utf8(chars)) == 2 * Wide(chars)
  {
    if chars != [] {
      Utf8DoublesWide(chars[1..]);
      var first: seq<Byte> := if chars[0] < 128 then [chars[0]] else [192 + chars[0] / 64, 128 + chars[0] % 64];
      WideAppend(first, Utf8(chars[1..]));
      assert first[1..] == if chars[0] < 128 then [] else [128 + chars[0] % 64];
      assert chars[0] >= 128 ==> first[1..][1..] == [];
    }
  }

  lemma KeywordIsNarrow(keyword: seq<Byte>)
    requires IsKeyword(keyword)
    ensures Wide(keyword) == 0 && Wide(Bracketed(keyword)) == 0
  {
    BracketsAreAscii(keyword);
    WideMeaning(keyword);
    WideMeaning(Bracketed(keyword));
  }

  lemma WideCons(b: Byte, rest: seq<Byte>)
    ensures Wide([b] + rest) == (if b >= 128 then 1 else 0) + Wide(rest)
  {
    assert ([b] + rest)[1..] == rest;
  }

  /** The rewrite and its undoing keep the bytes that are not ASCII. */
  lemma {:induction false} RewriteKeepsWide(keyword: seq<Byte>, after: bool, rest: seq<Byte>, quote: Option<Byte>)
    requires IsKeyword(keyword)
    ensures Wide(Rewritten(keyword, after, rest, quote)) == Wide(rest)
    decreases |rest|
  {
    hide Wide;
    hide KeyHere;
    if rest == [] {
    } else if quote.Some? && rest[0] == BACKSLASH && |rest| > 1 {
      RewriteKeepsWide(keyword, IsIdentifier(rest[1]), rest[2..], quote);
      WideAppend(rest[..2], rest[2..]);
      WideAppend(rest[..2], Rewritten(keyword, IsIdentifier(rest[1]), rest[2..], quote));
      assert rest == rest[..2] + rest[2..];
    } else if quote.None? && !IsQuote(rest[0]) && KeyHere(keyword, after, rest) {
      KeySplits(keyword, after, rest);
      var tail := rest[|keyword|..];
      KeyBecomes(keyword, after, rest);
      RewriteKeepsWide(keyword, true, tail, None);
      WideAppend(keyword, tail);
      WideAppend(Bracketed(keyword), Rewritten(keyword, true, tail, None));
      KeywordIsNarrow(keyword);
    } else {
      var still := if quote.Some? then (if rest[0] == quote.value then None else quote)
                   else if IsQuote(rest[0]) then Some(rest[0]) else None;
      RewriteKeepsWide(keyword, IsIdentifier(rest[0]), rest[1..], still);
      WideCons(rest[0], rest[1..]);
      WideCons(rest[0], Rewritten(keyword, IsIdentifier(rest[0]), rest[1..], still));
      assert rest == [rest[0]] + rest[1..];
    }
  }

  lemma KeySplits(keyword: seq<Byte>, after: bool, rest: seq<Byte>)
    requires IsKeyword(keyword) && KeyHere(keyword, after, rest)
    ensures |keyword| <= |rest| && rest == keyword + rest[|keyword|..] && rest[|keyword|..] != rest
  {
  }

  lemma {:induction false} UnbracketedKeepsWide(keyword: seq<Byte>, text: seq<Byte>, quote: Option<Byte>)
    requires IsKeyword(keyword)
    ensures Wide(Unbracketed(keyword, text, quote)) == Wide(text)
    decreases |text|
  {
    hide Wide;
    if text == [] {
    } else if quote.Some? && text[0] == BACKSLASH && |text| > 1 {
      UnbracketedKeepsWide(keyword, text[2..], quote);
      WideAppend(text[..2], text[2..]);
      WideAppend(text[..2], Unbracketed(keyword, text[2..], quote));
      assert text == text[..2] + text[2..];
    } else if quote.None? && !IsQuote(text[0]) && StartsWith(text, Bracketed(keyword)) {
      var tail := text[|Bracketed(keyword)|..];
      SplitBracketed(keyword, text);
      UnbracketedKeepsWide(keyword, tail, None);
      WideAppend(Bracketed(keyword), tail);
      WideAppend(keyword, Unbracketed(keyword, tail, None));
      KeywordIsNarrow(keyword);
    } else {
      var still := if quote.Some? then (if text[0] == quote.value then None else quote)
                   else if IsQuote(text[0]) then Some(text[0]) else None;
      UnbracketedKeepsWide(keyword, text[1..], still);
      WideCons(text[0], text[1..]);
      WideCons(text[0], Unbracketed(keyword, text[1..], still));
      assert text == [text[0]] + text[1..];
    }
  }

  /**
   Taking the brackets and quotes off the returned string restores the source exactly when the source
   is ASCII and did not itself spell a bracketed keyword outside its strings.
  */
  lemma RestoredIff(keyword: seq<Byte>, source: seq<Byte>)
    requires IsKeyword(keyword)
    ensures Unbracketed(keyword, Returned(keyword, source), None) == source <==>
      Ascii(source) && !HasBracketed(keyword, source, None)
  {
    var returned := Returned(keyword, source);
    UnbracketedKeepsWide(keyword, returned, None);
    Utf8DoublesWide(Rewrite(keyword, source));
    RewriteKeepsWide(keyword, false, source, None);
    WideMeaning(source);
    ReturnedIffAscii(keyword, source);
    CharactersRestoredIff(keyword, source);
  }

  /** An accented letter alone, U+00E9, comes back as four bytes. */
  lemma AccentIsMangled()
    ensures Returned([114, 101, 112, 101, 97, 116], [0xc3, 0xa9]) == [0xc3, 0x83, 0xc2, 0xa9]
  {
    var keyword, s: seq<Byte> := [114, 101, 112, 101, 97, 116], [0xc3, 0xa9];
    assert !StartsWith(s, keyword) && !StartsWith(s[1..], keyword);
    assert Rewritten(keyword, false, s[1..], None) == [0xa9] + Rewritten(keyword, false, s[1..][1..], None);
    assert Rewrite(keyword, s) == [0xc3, 0xa9];
    assert [0xc3, 0xa9][1..] == [0xa9] && [0xa9][1..] == [];
    assert Utf8([0xa9]) == [0xc2, 0xa9] + Utf8([]);
    assert Utf8([0xc3, 0xa9]) == [0xc3, 0x83] + Utf8([0xa9]);
  }
}

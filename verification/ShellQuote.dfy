/** The shell printer of src/runner.rs, and the proof that the shell reads back
  * exactly what was meant. */
module ShellQuote {
  import opened Bytes
  import opened Shell

  predicate Inert(c: char)
  {
    Alnum(c) || c in "@%_+=:,./-"
  }

  predicate AllInert(s: string)
  {
    forall i | 0 <= i < |s| :: Inert(s[i])
  }

  /** `s.replace('\'', "'\\''")`. */
  function Escaped(s: string): string
  {
    if s == "" then ""
    else (if s[0] == '\'' then "'\\''" else [s[0]]) + Escaped(s[1..])
  }

  function Quote(s: string): string
  {
    if s != "" && AllInert(s) then s else "'" + Escaped(s) + "'"
  }

  /** A name is made of letters, digits and underscores, and starts with no digit. */
  lemma NameIs(s: string)
    ensures IsName(s) <==> s != "" && !('0' <= s[0] <= '9') &&
                           forall c <- s :: 'a' <= c <= 'z' || 'A' <= c <= 'Z' || '0' <= c <= '9' || c == '_'
  {
    if IsName(s) {
      forall c | c in s ensures NameChar(c) {
        var i :| 0 <= i < |s| && s[i] == c;
      }
    } else {
      assert forall i | 0 <= i < |s| :: s[i] in s;
    }
  }

  /** Exactly the nonempty words of letters, digits and `@%_+=:,./-` go unquoted. */
  lemma QuoteIs(s: string)
    ensures Quote(s) == s <==>
            s != "" && forall c <- s :: 'a' <= c <= 'z' || 'A' <= c <= 'Z' || '0' <= c <= '9' || c in "@%_+=:,./-"
    ensures Quote(s) == s || (|Quote(s)| >= 2 && Quote(s)[0] == '\'' == Quote(s)[|Quote(s)| - 1])
  {
    EscapedIsLonger(s);
    if AllInert(s) {
      forall c | c in s ensures Inert(c) {
        var i :| 0 <= i < |s| && s[i] == c;
      }
    }
  }

  lemma {:induction false} EscapedIsLonger(s: string)
    ensures |Escaped(s)| >= |s|
  {
    if s != "" { EscapedIsLonger(s[1..]); }
  }

  function JoinWith(parts: seq<string>): string
  {
    if parts == [] then ""
    else if |parts| == 1 then parts[0]
    else parts[0] + " " + JoinWith(parts[1..])
  }

  function Quoted(words: seq<string>): (r: seq<string>)
    ensures |r| == |words|
  {
    seq(|words|, i requires 0 <= i < |words| => Quote(words[i]))
  }

  function ShellJoin(words: seq<string>): string
  {
    JoinWith(Quoted(words))
  }

  predicate NulFree(s: string)
  {
    '\0' !in s
  }

  // ----- reading one piece of text -----

  /** Reading `text` outside quotes appends `f` to the word in progress. */
  ghost predicate Reads(text: string, f: Field, home: string)
  {
    forall rest, cur :: Lex(text + rest, Plain, cur, home) == Lex(rest, Plain, Grow(cur, f), home)
  }

  lemma ReadsAppend(x: string, f: Field, y: string, g: Field, home: string)
    requires Reads(x, f, home) && Reads(y, g, home)
    ensures Reads(x + y, f + g, home)
  {
    forall rest, cur ensures Lex(x + y + rest, Plain, cur, home) == Lex(rest, Plain, Grow(cur, f + g), home) {
      assert x + y + rest == x + (y + rest);
      assert Lex(x + (y + rest), Plain, cur, home) == Lex(y + rest, Plain, Grow(cur, f), home);
      assert Grow(Grow(cur, f), g) == Grow(cur, f + g) by {
        if cur.Some? { assert cur.value + f + g == cur.value + (f + g); }
      }
    }
  }

  lemma InertIsNotActive(c: char)
    requires Inert(c)
    ensures !Active(c) && c != ' ' && c != '\t' && c != '\'' && c != '\"' && c != '\\' && c != '&'
  {}

  lemma ReadsInertChar(c: char, home: string)
    requires Inert(c)
    ensures Reads([c], [QChar(c, false)], home)
  {
    InertIsNotActive(c);
    forall rest, cur ensures Lex([c] + rest, Plain, cur, home) == Lex(rest, Plain, Grow(cur, [QChar(c, false)]), home) {
      assert ([c] + rest)[1..] == rest;
    }
  }

  lemma {:induction false} ReadsInert(s: string, home: string)
    requires s != "" && AllInert(s)
    ensures Reads(s, Marked(s, false), home)
  {
    ReadsInertChar(s[0], home);
    if |s| == 1 {
      assert s == [s[0]] && Marked(s, false) == [QChar(s[0], false)];
    } else {
      ReadsInert(s[1..], home);
      ReadsAppend([s[0]], [QChar(s[0], false)], s[1..], Marked(s[1..], false), home);
      assert s == [s[0]] + s[1..];
      assert Marked(s, false) == [QChar(s[0], false)] + Marked(s[1..], false);
    }
  }

  /** Inside single quotes, `Escaped(s)` and the closing quote read as `s`. */
  lemma {:induction false} LexEscaped(s: string, rest: string, f: Field, home: string)
    requires NulFree(s)
    ensures Lex(Escaped(s) + "'" + rest, Single, Some(f), home) == Lex(rest, Plain, Some(f + Marked(s, true)), home)
    decreases |s|
  {
    var tail := "'" + rest;
    assert Escaped(s) + "'" + rest == Escaped(s) + tail;
    if s == "" {
      assert Escaped(s) + tail == tail && tail[1..] == rest && f + Marked(s, true) == f;
    } else {
      var more := Escaped(s[1..]) + "'" + rest;
      var g := f + [QChar(s[0], true)];
      assert g + Marked(s[1..], true) == f + Marked(s, true);
      LexEscaped(s[1..], rest, g, home);
      if s[0] == '\'' {
        assert Escaped(s) + "'" + rest == "'\\''" + more;
        LexQuoteEscape(more, f, home);
      } else {
        assert Escaped(s) + "'" + rest == [s[0]] + more;
        assert s[0] in s && ([s[0]] + more)[1..] == more;
      }
    }
  }

  /** Leaving the quotes, an escaped quote, and entering them again. */
  lemma LexQuoteEscape(more: string, f: Field, home: string)
    ensures Lex("'\\''" + more, Single, Some(f), home) == Lex(more, Single, Some(f + [QChar('\'', true)]), home)
  {
    var s1, s2, s3 := "'\\''" + more, "\\''" + more, "'" + more;
    assert s1[1..] == s2 && s2[1..] == "''" + more && ("''" + more)[1..] == s3 && s3[1..] == more;
    var g := f + [QChar('\'', true)];
    assert Lex(s1, Single, Some(f), home) == Lex(s2, Plain, Some(f), home);
    assert Lex(s2, Plain, Some(f), home) == Lex(s3, Plain, Some(g), home);
    assert g + [] == g;
  }

  /** What the field of a quoted string is: unquoted only when it needed no quotes. */
  function FieldOf(s: string): (f: Field)
    ensures Text(f) == s
  {
    Marked(s, s == "" || !AllInert(s))
  }

  lemma LexQuoted(s: string, rest: string, cur: Option<Field>, home: string)
    requires NulFree(s)
    ensures Lex("'" + Escaped(s) + "'" + rest, Plain, cur, home) == Lex(rest, Plain, Grow(cur, Marked(s, true)), home)
  {
    hide Marked, Active, Escaped;
    var inner, f := Escaped(s) + "'" + rest, Marked(s, true);
    var whole := "'" + Escaped(s) + "'" + rest;
    assert whole == "'" + inner && whole[0] == '\'' && whole[1..] == inner;
    var start := match cur case None => [] case Some(g) => g;
    assert start + [] == start && [] + f == f;
    assert Grow(cur, []) == Some(start) && Grow(cur, f) == Some(start + f);
    LexEscaped(s, rest, start, home);
  }

  lemma ReadsQuote(s: string, home: string)
    requires NulFree(s)
    ensures Reads(Quote(s), FieldOf(s), home)
  {
    if s != "" && AllInert(s) {
      ReadsInert(s, home);
    } else {
      var f := Marked(s, true);
      forall rest, cur ensures Lex(Quote(s) + rest, Plain, cur, home) == Lex(rest, Plain, Grow(cur, f), home) {
        LexQuoted(s, rest, cur, home);
      }
    }
  }

  lemma ReadsHome(home: string)
    ensures Reads("\"$HOME\"", Marked(home, true), home)
  {
    var f := Marked(home, true);
    forall rest, cur ensures Lex("\"$HOME\"" + rest, Plain, cur, home) == Lex(rest, Plain, Grow(cur, f), home) {
      var s0, s1, s2 := "\"$HOME\"" + rest, "$HOME\"" + rest, "\"" + rest;
      assert s0[1..] == s1 && s1[..5] == "$HOME" && s1[5..] == s2 && s2[1..] == rest;
      assert HomeAhead(s1);
      assert Lex(s0, Plain, cur, home) == Lex(s1, Double, Grow(cur, []), home);
      assert Lex(s1, Double, Grow(cur, []), home) == Lex(s2, Double, Grow(Grow(cur, []), f), home);
      assert Grow(Grow(cur, []), f) == Grow(cur, f) by {
        match cur case None => assert [] + f == f; case Some(g) => assert g + [] + f == g + f;
      }
    }
  }

  // ----- reading words -----

  lemma WordThenSpace(text: string, f: Field, rest: string, home: string)
    requires Reads(text, f, home)
    ensures Tokens(text + " " + rest, home) == Cons(Word(f), Tokens(rest, home))
  {
    assert text + " " + rest == text + (" " + rest) && (" " + rest)[1..] == rest;
    assert Lex(text + (" " + rest), Plain, None, home) == Lex(" " + rest, Plain, Grow(None, f), home);
  }

  lemma NoTokens(home: string)
    ensures Tokens("", home) == Some([])
  {}

  lemma WordAtEnd(text: string, f: Field, home: string)
    requires Reads(text, f, home)
    ensures Tokens(text, home) == Some([Word(f)])
  {
    assert text + "" == text;
    assert Lex(text + "", Plain, None, home) == Lex("", Plain, Grow(None, f), home);
    assert Lex("", Plain, Some(f), home) == Flush(Some(f), Some([]));
    assert [Word(f)] + [] == [Word(f)];
  }

  function WordTokens(fs: seq<Field>): (ts: seq<Token>)
    ensures |ts| == |fs|
  {
    seq(|fs|, i requires 0 <= i < |fs| => Word(fs[i]))
  }

  ghost predicate AllRead(parts: seq<string>, fs: seq<Field>, home: string)
  {
    |parts| == |fs| && forall i | 0 <= i < |parts| :: Reads(parts[i], fs[i], home)
  }

  lemma AllReadAppend(xs: seq<string>, fs: seq<Field>, ys: seq<string>, gs: seq<Field>, home: string)
    requires AllRead(xs, fs, home) && AllRead(ys, gs, home)
    ensures AllRead(xs + ys, fs + gs, home)
  {
    hide Reads, Lex;
    forall i | 0 <= i < |xs + ys| ensures Reads((xs + ys)[i], (fs + gs)[i], home) {
      if i >= |xs| {
        assert (xs + ys)[i] == ys[i - |xs|] && (fs + gs)[i] == gs[i - |xs|];
      }
    }
  }

  lemma {:induction false} TokensOfJoin(parts: seq<string>, fs: seq<Field>, home: string)
    requires AllRead(parts, fs, home)
    ensures Tokens(JoinWith(parts), home) == Some(WordTokens(fs))
  {
    if parts == [] {
      assert Tokens("", home) == Some([]) && WordTokens(fs) == [];
    } else if |parts| == 1 {
      WordAtEnd(parts[0], fs[0], home);
      assert WordTokens(fs) == [Word(fs[0])];
    } else if parts != [] {
      assert Reads(parts[0], fs[0], home);
      forall i | 0 <= i < |parts| - 1 ensures Reads(parts[1..][i], fs[1..][i], home) {
        assert Reads(parts[i + 1], fs[i + 1], home);
      }
      TokensOfJoin(parts[1..], fs[1..], home);
      WordThenSpace(parts[0], fs[0], JoinWith(parts[1..]), home);
      assert WordTokens(fs) == [Word(fs[0])] + WordTokens(fs[1..]);
    }
  }

  function FieldsOf(words: seq<string>): (fs: seq<Field>)
    ensures |fs| == |words| && Texts(fs) == words
  {
    seq(|words|, i requires 0 <= i < |words| => FieldOf(words[i]))
  }

  lemma QuotedAllRead(words: seq<string>, home: string)
    requires forall w <- words :: NulFree(w)
    ensures AllRead(Quoted(words), FieldsOf(words), home)
  {
    forall i | 0 <= i < |words| ensures Reads(Quoted(words)[i], FieldsOf(words)[i], home) {
      assert words[i] in words;
      ReadsQuote(words[i], home);
    }
  }

  /** The shell reads `shell_join(words)` back as exactly those words. */
  lemma ShellJoinRoundTrip(words: seq<string>, home: string)
    requires forall w <- words :: NulFree(w)
    ensures var ts := Tokens(ShellJoin(words), home);
            ts.Some? && |ts.value| == |words| &&
            forall i | 0 <= i < |words| :: ts.value[i].Word? && Text(ts.value[i].field) == words[i]
  {
    QuotedAllRead(words, home);
    TokensOfJoin(Quoted(words), FieldsOf(words), home);
  }
}

/** A reader for the part of the shell language the tool writes (POSIX.1-2017,
  * Shell Command Language, sections 2.2.1 to 2.2.3, 2.3, 2.4 and 2.9.1): words with
  * their quoting, `&&`, assignments and simple commands. It declines, with None,
  * any line in which a character would mean more than itself. */
module Shell {
  import opened Bytes

  /** A character of a word after quote removal, and whether it was quoted. */
  datatype QChar = QChar(c: char, quoted: bool)

  type Field = seq<QChar>

  datatype Token = Word(field: Field) | AndIf

  datatype Mode = Plain | Single | Double

  datatype Command = Command(assigns: seq<(string, string)>, argv: seq<string>)

  function Text(f: Field): (s: string)
    ensures |s| == |f|
  {
    seq(|f|, i requires 0 <= i < |f| => f[i].c)
  }

  function Marked(s: string, quoted: bool): (f: Field)
    ensures |f| == |s| && Text(f) == s
  {
    seq(|s|, i requires 0 <= i < |s| => QChar(s[i], quoted))
  }

  predicate Alnum(c: char)
  {
    'a' <= c <= 'z' || 'A' <= c <= 'Z' || '0' <= c <= '9'
  }

  predicate NameChar(c: char)
  {
    Alnum(c) || c == '_'
  }

  predicate NameStart(c: char)
  {
    NameChar(c) && !('0' <= c <= '9')
  }

  /** A name: the only thing that can stand left of `=` in an assignment. */
  predicate IsName(s: string)
  {
    s != "" && NameStart(s[0]) && forall i | 0 <= i < |s| :: NameChar(s[i])
  }

  /** Unquoted, these do more than stand for themselves. */
  predicate Active(c: char)
  {
    c in "|&;<>()$`*?[~#!{}\n\0"
  }

  // ----- tokens -----

  function Flush(cur: Option<Field>, rest: Option<seq<Token>>): Option<seq<Token>>
  {
    match cur
    case None => rest
    case Some(f) => Cons(Word(f), rest)
  }

  function Cons(t: Token, rest: Option<seq<Token>>): Option<seq<Token>>
  {
    match rest case None => None case Some(ts) => Some([t] + ts)
  }

  /** The word in progress, a new one if there is none, with `more` appended. */
  function Grow(cur: Option<Field>, more: Field): Option<Field>
  {
    match cur case None => Some(more) case Some(f) => Some(f + more)
  }

  /** `"$HOME"`, the one expansion that is understood. */
  predicate HomeAhead(s: string)
  {
    |s| >= 5 && s[..5] == "$HOME" && (|s| > 5 ==> !NameChar(s[5]))
  }

  function Lex(s: string, mode: Mode, cur: Option<Field>, home: string): Option<seq<Token>>
    decreases |s|
  {
    if s == "" then (if mode == Plain then Flush(cur, Some([])) else None)
    else
      var c, t := s[0], s[1..];
      match mode
      case Plain =>
        if c == ' ' || c == '\t' then Flush(cur, Lex(t, Plain, None, home))
        else if c == '\'' then Lex(t, Single, Grow(cur, []), home)
        else if c == '\"' then Lex(t, Double, Grow(cur, []), home)
        else if c == '\\' then
          if t == "" || t[0] == '\0' then None
          else if t[0] == '\n' then Lex(t[1..], Plain, cur, home)
          else Lex(t[1..], Plain, Grow(cur, [QChar(t[0], true)]), home)
        else if c == '&' && t != "" && t[0] == '&' then Flush(cur, Cons(AndIf, Lex(t[1..], Plain, None, home)))
        else if Active(c) then None
        else Lex(t, Plain, Grow(cur, [QChar(c, false)]), home)
      case Single =>
        if c == '\'' then Lex(t, Plain, cur, home)
        else if c == '\0' then None
        else Lex(t, Single, Grow(cur, [QChar(c, true)]), home)
      case Double =>
        if c == '\"' then Lex(t, Plain, cur, home)
        else if c == '$' then
          if HomeAhead(s) then Lex(s[5..], Double, Grow(cur, Marked(home, true)), home) else None
        else if c == '`' || c == '\0' then None
        else if c == '\\' && t != "" && t[0] in "$`\"\\" then Lex(t[1..], Double, Grow(cur, [QChar(t[0], true)]), home)
        else if c == '\\' && t != "" && t[0] == '\n' then Lex(t[1..], Double, cur, home)
        else Lex(t, Double, Grow(cur, [QChar(c, true)]), home)
  }

  function Tokens(line: string, home: string): Option<seq<Token>>
  {
    Lex(line, Plain, None, home)
  }

  // ----- commands -----

  /** Where the first unquoted `=` is, or the length. */
  function EqIndex(f: Field): (i: nat)
    ensures i <= |f|
  {
    if f == [] || f[0] == QChar('=', false) then 0 else 1 + EqIndex(f[1..])
  }

  predicate IsAssignment(f: Field)
  {
    var i := EqIndex(f);
    i < |f| && IsName(Text(f[..i])) && forall j | 0 <= j < i :: !f[j].quoted
  }

  function AssignmentOf(f: Field): (string, string)
    requires IsAssignment(f)
  {
    (Text(f[..EqIndex(f)]), Text(f[EqIndex(f) + 1..]))
  }

  predicate ReservedText(s: string)
  {
    s in ["case", "do", "done", "elif", "else", "esac", "fi", "for", "if", "in", "then", "until", "while"]
  }

  predicate Reserved(f: Field)
  {
    ReservedText(Text(f)) && forall j | 0 <= j < |f| :: !f[j].quoted
  }

  function Texts(fs: seq<Field>): (ss: seq<string>)
    ensures |ss| == |fs|
  {
    seq(|fs|, i requires 0 <= i < |fs| => Text(fs[i]))
  }

  /** A simple command: assignments first, then a command name that is no reserved word. */
  function Simple(fs: seq<Field>, assigns: seq<(string, string)>): Option<Command>
  {
    if fs != [] && IsAssignment(fs[0]) then Simple(fs[1..], assigns + [AssignmentOf(fs[0])])
    else if fs == [] && assigns == [] then None
    else if assigns == [] && Reserved(fs[0]) then None
    else Some(Command(assigns, Texts(fs)))
  }

  function AndList(ts: seq<Token>, fs: seq<Field>): Option<seq<Command>>
  {
    if ts == [] then
      match Simple(fs, []) case None => None case Some(c) => Some([c])
    else
      match ts[0]
      case Word(f) => AndList(ts[1..], fs + [f])
      case AndIf =>
        match Simple(fs, [])
        case None => None
        case Some(c) =>
          match AndList(ts[1..], [])
          case None => None
          case Some(cs) => Some([c] + cs)
  }

  /** The commands of a line, with every word expanded. */
  function Commands(line: string, home: string): Option<seq<Command>>
  {
    match Tokens(line, home) case None => None case Some(ts) => AndList(ts, [])
  }
}

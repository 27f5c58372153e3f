/**
 * Rendering of the command a target runs: the target's password is escaped for
 * POSIX single quoting and substituted for every `{{PASSWORD}}` in the command
 * template.
 *
 * Two substitutions are modelled. `RenderCommandAsWritten` is what the runner
 * does: `String.prototype.replace` with a global regular expression and a
 * replacement STRING, which ECMAScript's GetSubstitution (ECMA-262, 2024
 * edition, section 22.1.3.19.1) scans for `$$`, `$&`, `` $` `` and `$'`.
 * `RenderCommand` inserts the escaped password verbatim, which is what the
 * runner means to do; the two agree whenever the password holds no `$`.
 */
module Render {
  import opened Wrappers

  /** The token of the command template that stands for the password. */
  const Placeholder: string := "{{PASSWORD}}"

  /** What every single quote of the password becomes: close the quoted
      string, a backslash-escaped quote, reopen the quoted string. */
  const QuoteEscape: string := "'\\''"

  /** `pat` occurs in `s` at position `j`. */
  predicate OccursAt(s: string, pat: string, j: nat) {
    j + |pat| <= |s| && s[j..j + |pat|] == pat
  }

  // ---------------------------------------------------------------------
  // ECMAScript replacement semantics
  // ---------------------------------------------------------------------

  /**
   * GetSubstitution for a match without capture groups: `matched` was found
   * in `str` at `position`. `$$` gives `$`, `$&` the match, `` $` `` the text
   * before it, `$'` the text after it. With no capture groups `$n`, `$nn` and
   * `$<` stand for themselves, and copying them one character at a time gives
   * the same text, since none of the characters they consume is a `$`.
   */
  function Substitution(matched: string, str: string, position: nat, template: string): (r: string)
    requires position + |matched| <= |str|
    ensures '$' !in template ==> r == template
    decreases |template|
  {
    if template == [] then []
    else if |template| >= 2 && template[0] == '$' && template[1] == '$' then
      "$" + Substitution(matched, str, position, template[2..])
    else if |template| >= 2 && template[0] == '$' && template[1] == '&' then
      matched + Substitution(matched, str, position, template[2..])
    else if |template| >= 2 && template[0] == '$' && template[1] == '`' then
      str[..position] + Substitution(matched, str, position, template[2..])
    else if |template| >= 2 && template[0] == '$' && template[1] == '\'' then
      str[position + |matched|..] + Substitution(matched, str, position, template[2..])
    else
      [template[0]] + Substitution(matched, str, position, template[1..])
  }

  /**
   * `s.replace(/pat/g, replacement)` for a non-empty literal pattern, scanning
   * from index `i`: the leftmost occurrence at or after `i` is replaced by the
   * substitution of `replacement`, and the scan resumes after the match.
   * Where `pat` does not occur from `i` on, the rest comes back unchanged.
   */
  function ReplaceAllFrom(s: string, pat: string, replacement: string, i: nat): (r: string)
    requires pat != [] && i <= |s|
    ensures (forall j: nat :: i <= j ==> !OccursAt(s, pat, j)) ==> r == s[i..]
    decreases |s| - i
  {
    if i + |pat| > |s| then s[i..]
    else if s[i..i + |pat|] == pat then
      assert OccursAt(s, pat, i);
      Substitution(pat, s, i, replacement) + ReplaceAllFrom(s, pat, replacement, i + |pat|)
    else
      assert [s[i]] + s[i + 1..] == s[i..];
      [s[i]] + ReplaceAllFrom(s, pat, replacement, i + 1)
  }

  /** `s.replace(/pat/g, replacement)` with a replacement string: with no `$`
      in the replacement, every match is replaced by it literally. */
  function ReplaceAll(s: string, pat: string, replacement: string): (r: string)
    requires pat != []
    ensures '$' !in replacement ==> r == ReplaceLiteral(s, pat, replacement)
  {
    ReplaceAllFromStartIsLiteral(s, pat, replacement);
    ReplaceAllFrom(s, pat, replacement, 0)
  }

  lemma ReplaceAllFromStartIsLiteral(s: string, pat: string, text: string)
    requires pat != []
    ensures '$' !in text ==> ReplaceAllFrom(s, pat, text, 0) == ReplaceLiteral(s, pat, text)
  {
    if '$' !in text {
      ReplaceAllIsLiteral(s, pat, text, 0);
      assert s[0..] == s;
    }
  }

  /** The scan from `i` copies the text up to the first match at or after `i`,
      puts the substitution there, and resumes after the match: matches are
      taken left to right and never overlap, whatever the replacement. */
  lemma ReplaceAllFromLeftmost(s: string, pat: string, replacement: string, i: nat, k: nat)
    requires pat != [] && i <= k && OccursAt(s, pat, k)
    requires forall j: nat :: i <= j < k ==> !OccursAt(s, pat, j)
    ensures ReplaceAllFrom(s, pat, replacement, i) ==
      s[i..k] + Substitution(pat, s, k, replacement) + ReplaceAllFrom(s, pat, replacement, k + |pat|)
  {
    ReplaceAllFromCopiesPrefix(s, pat, replacement, i, k);
    ReplaceAllFromSubstitutes(s, pat, replacement, k);
  }

  /** Up to the first match at or after `i`, the scan copies the text. */
  lemma {:induction false} ReplaceAllFromCopiesPrefix(s: string, pat: string, replacement: string, i: nat, k: nat)
    requires pat != [] && i <= k && k + |pat| <= |s|
    requires forall j: nat :: i <= j < k ==> !OccursAt(s, pat, j)
    ensures ReplaceAllFrom(s, pat, replacement, i) == s[i..k] + ReplaceAllFrom(s, pat, replacement, k)
    decreases k - i
  {
    if i < k {
      SliceCons(s, i, k);
      ReplaceAllFromCopies(s, pat, replacement, i);
      ReplaceAllFromCopiesPrefix(s, pat, replacement, i + 1, k);
      ConsConcat(s[i], s[i + 1..k], ReplaceAllFrom(s, pat, replacement, k));
    } else {
      assert s[i..k] == [];
    }
  }

  lemma SliceCons(s: string, i: nat, k: nat)
    requires i < k <= |s|
    ensures s[i..k] == [s[i]] + s[i + 1..k]
  {
  }

  lemma ConsConcat(c: char, a: string, b: string)
    ensures [c] + (a + b) == ([c] + a) + b
  {
  }

  /** Where the pattern does not occur, the scan copies one character. */
  lemma ReplaceAllFromCopies(s: string, pat: string, replacement: string, i: nat)
    requires pat != [] && i + |pat| <= |s| && !OccursAt(s, pat, i)
    ensures ReplaceAllFrom(s, pat, replacement, i) == [s[i]] + ReplaceAllFrom(s, pat, replacement, i + 1)
  {
  }

  /** At a match, the scan emits the substitution and skips the match. */
  lemma ReplaceAllFromSubstitutes(s: string, pat: string, replacement: string, i: nat)
    requires pat != [] && OccursAt(s, pat, i)
    ensures ReplaceAllFrom(s, pat, replacement, i) ==
      Substitution(pat, s, i, replacement) + ReplaceAllFrom(s, pat, replacement, i + |pat|)
  {
  }

  /** Replaces every non-overlapping occurrence of `pat`, left to right, by
      `text` taken literally; the inserted text is not scanned again. */
  function ReplaceLiteral(s: string, pat: string, text: string): string
    requires pat != []
    decreases |s|
  {
    if |s| < |pat| then s
    else if s[..|pat|] == pat then text + ReplaceLiteral(s[|pat|..], pat, text)
    else [s[0]] + ReplaceLiteral(s[1..], pat, text)
  }

  /** Without a `$` in the replacement, the ECMAScript replacement inserts it literally. */
  lemma {:induction false} ReplaceAllIsLiteral(s: string, pat: string, text: string, i: nat)
    requires pat != [] && i <= |s| && '$' !in text
    ensures ReplaceAllFrom(s, pat, text, i) == ReplaceLiteral(s[i..], pat, text)
    decreases |s| - i
  {
    if i + |pat| > |s| {
      ScanTail(s, pat, text, i);
    } else {
      var next, emitted := ScanStep(s, pat, text, i);
      ReplaceAllIsLiteral(s, pat, text, next);
    }
  }

  lemma ScanTail(s: string, pat: string, text: string, i: nat)
    requires pat != [] && i <= |s| && i + |pat| > |s|
    ensures ReplaceAllFrom(s, pat, text, i) == ReplaceLiteral(s[i..], pat, text)
  {
  }

  /** One step of both scans: the same text is emitted and both resume at `next`. */
  lemma ScanStep(s: string, pat: string, text: string, i: nat) returns (next: nat, emitted: string)
    requires pat != [] && i + |pat| <= |s| && '$' !in text
    ensures i < next <= |s|
    ensures ReplaceAllFrom(s, pat, text, i) == emitted + ReplaceAllFrom(s, pat, text, next)
    ensures ReplaceLiteral(s[i..], pat, text) == emitted + ReplaceLiteral(s[next..], pat, text)
  {
    if s[i..i + |pat|] == pat {
      next, emitted := ScanAtMatch(s, pat, text, i);
    } else {
      next, emitted := ScanAtMismatch(s, pat, text, i);
    }
  }

  /** At a match both scans emit the replacement and skip the match. */
  lemma ScanAtMatch(s: string, pat: string, text: string, i: nat) returns (next: nat, emitted: string)
    requires pat != [] && i + |pat| <= |s| && s[i..i + |pat|] == pat && '$' !in text
    ensures i < next <= |s|
    ensures ReplaceAllFrom(s, pat, text, i) == emitted + ReplaceAllFrom(s, pat, text, next)
    ensures ReplaceLiteral(s[i..], pat, text) == emitted + ReplaceLiteral(s[next..], pat, text)
  {
    var t := s[i..];
    assert t[..|pat|] == pat;
    assert t[|pat|..] == s[i + |pat|..];
    next, emitted := i + |pat|, text;
  }

  /** Elsewhere both scans copy one character. */
  lemma ScanAtMismatch(s: string, pat: string, text: string, i: nat) returns (next: nat, emitted: string)
    requires pat != [] && i + |pat| <= |s| && s[i..i + |pat|] != pat
    ensures i < next <= |s|
    ensures ReplaceAllFrom(s, pat, text, i) == emitted + ReplaceAllFrom(s, pat, text, next)
    ensures ReplaceLiteral(s[i..], pat, text) == emitted + ReplaceLiteral(s[next..], pat, text)
  {
    var t := s[i..];
    assert t[..|pat|] == s[i..i + |pat|];
    assert t[1..] == s[i + 1..];
    next, emitted := i + 1, [s[i]];
  }

  /** A string in which `pat` occurs nowhere comes back unchanged. */
  lemma {:induction false} ReplaceLiteralNoOccurrence(s: string, pat: string, text: string)
    requires pat != []
    requires forall j: nat :: !OccursAt(s, pat, j)
    ensures ReplaceLiteral(s, pat, text) == s
    decreases |s|
  {
    if |s| >= |pat| {
      assert !OccursAt(s, pat, 0);
      forall j: nat ensures !OccursAt(s[1..], pat, j) {
        assert !OccursAt(s, pat, j + 1);
        if j + |pat| <= |s[1..]| {
          assert s[1..][j..j + |pat|] == s[j + 1..j + 1 + |pat|];
        }
      }
      ReplaceLiteralNoOccurrence(s[1..], pat, text);
    }
  }

  /**
   * Left to right and without rescanning: when the first occurrence of `pat`
   * in `x + pat + y` is the one after `x`, the result is `x`, then `text`
   * (never scanned again), then the replacement of `y` on its own.
   */
  lemma {:induction false} ReplaceLiteralLeftmost(x: string, y: string, pat: string, text: string)
    requires pat != []
    requires forall j: nat :: j < |x| ==> !OccursAt(x + pat + y, pat, j)
    ensures ReplaceLiteral(x + pat + y, pat, text) == x + text + ReplaceLiteral(y, pat, text)
    decreases |x|
  {
    var s := x + pat + y;
    if x == [] {
      assert s == pat + y;
      assert s[..|pat|] == pat;
      assert s[|pat|..] == y;
    } else {
      assert !OccursAt(s, pat, 0);
      assert s[1..] == x[1..] + pat + y;
      forall j: nat | j < |x[1..]| ensures !OccursAt(x[1..] + pat + y, pat, j) {
        assert !OccursAt(s, pat, j + 1);
        assert s[1..][j..j + |pat|] == s[j + 1..j + 1 + |pat|];
      }
      ReplaceLiteralLeftmost(x[1..], y, pat, text);
      assert x + text + ReplaceLiteral(y, pat, text) == [x[0]] + (x[1..] + text + ReplaceLiteral(y, pat, text));
    }
  }

  // ---------------------------------------------------------------------
  // The password escape
  // ---------------------------------------------------------------------

  /** Reference definition of the escape: each `'` becomes `'\''`, every
      other character stays where it is. */
  function QuoteEach(p: string): string
    decreases |p|
  {
    if p == [] then []
    else (if p[0] == '\'' then QuoteEscape else [p[0]]) + QuoteEach(p[1..])
  }

  /** The number of single quotes in `p`. */
  function QuoteCount(p: string): nat
    decreases |p|
  {
    if p == [] then 0 else (if p[0] == '\'' then 1 else 0) + QuoteCount(p[1..])
  }

  /** `(vm.password || '')`: an absent password and an empty one both give "". */
  function PasswordOrEmpty(password: Option<string>): (r: string)
    ensures r == "" <==> password.None? || password.value == ""
    ensures password.Some? ==> r == password.value
  {
    match password
    case None => ""
    case Some(p) => p
  }

  /** `p.replace(/'/g, "'\\''")`, as the runner writes it: it is the
      reference escape. */
  function Escape(p: string): (r: string)
    ensures r == QuoteEach(p)
  {
    assert '$' !in QuoteEscape;
    ReplaceQuoteIsQuoteEach(p);
    ReplaceAll(p, "'", QuoteEscape)
  }

  /** The escaped password the runner substitutes (line 13's `safePassword`):
      the reference escape of the password or of "", three characters longer
      per single quote. */
  function SafePassword(password: Option<string>): (r: string)
    ensures r == QuoteEach(PasswordOrEmpty(password))
    ensures |r| == |PasswordOrEmpty(password)| + 3 * QuoteCount(PasswordOrEmpty(password))
  {
    QuoteEachLength(PasswordOrEmpty(password));
    Escape(PasswordOrEmpty(password))
  }

  lemma {:induction false} ReplaceQuoteIsQuoteEach(p: string)
    ensures ReplaceLiteral(p, "'", QuoteEscape) == QuoteEach(p)
    decreases |p|
  {
    if p != [] {
      ReplaceQuoteIsQuoteEach(p[1..]);
    }
  }

  /** Each quote grows by three characters and nothing else changes length. */
  lemma {:induction false} QuoteEachLength(p: string)
    ensures |QuoteEach(p)| == |p| + 3 * QuoteCount(p)
    decreases |p|
  {
    if p != [] {
      QuoteEachLength(p[1..]);
    }
  }

  /** The escape only inserts backslashes and quotes: it introduces no other character. */
  lemma {:induction false} QuoteEachKeepsCharacters(p: string, c: char)
    requires c != '\'' && c != '\\'
    ensures c in QuoteEach(p) <==> c in p
    decreases |p|
  {
    if p != [] {
      QuoteEachKeepsCharacters(p[1..], c);
      assert QuoteEach(p) == (if p[0] == '\'' then QuoteEscape else [p[0]]) + QuoteEach(p[1..]);
      assert p == [p[0]] + p[1..];
    }
  }

  /** `len(escape(p)) == len(p) + 3 * count(p, "'")`. */
  lemma EscapeLength(p: string)
    ensures |Escape(p)| == |p| + 3 * QuoteCount(p)
  {
    QuoteEachLength(p);
  }

  /** A missing password renders as the empty string, and so does an empty one. */
  lemma MissingPassword()
    ensures SafePassword(None) == ""
    ensures SafePassword(Some("")) == ""
  {
    assert QuoteEach("") == "";
  }

  // ---------------------------------------------------------------------
  // The placeholder substitution
  // ---------------------------------------------------------------------

  /** The command with the escaped password inserted verbatim for every
      placeholder: a template that is just the placeholder becomes the escaped
      password, and one without a placeholder is left as it is. */
  function RenderCommand(template: string, password: Option<string>): (r: string)
    ensures template == Placeholder ==> r == SafePassword(password)
    ensures (forall j: nat :: !OccursAt(template, Placeholder, j)) ==> r == template
  {
    assert template == Placeholder ==> template[..|Placeholder|] == Placeholder && template[|Placeholder|..] == [];
    PlaceholderFreeUnchanged(template, SafePassword(password));
    ReplaceLiteral(template, Placeholder, SafePassword(password))
  }

  lemma PlaceholderFreeUnchanged(template: string, text: string)
    ensures (forall j: nat :: !OccursAt(template, Placeholder, j)) ==> ReplaceLiteral(template, Placeholder, text) == template
  {
    if forall j: nat :: !OccursAt(template, Placeholder, j) {
      ReplaceLiteralNoOccurrence(template, Placeholder, text);
    }
  }

  /** The command as the runner computes it:
      `command.replace(/{{PASSWORD}}/g, safePassword)`. When the password
      holds no `$` this is the verbatim insertion. */
  function RenderCommandAsWritten(template: string, password: Option<string>): (r: string)
    ensures '$' !in PasswordOrEmpty(password) ==> r == RenderCommand(template, password)
  {
    SafePasswordKeepsDollarFree(password);
    ReplaceAll(template, Placeholder, SafePassword(password))
  }

  lemma SafePasswordKeepsDollarFree(password: Option<string>)
    ensures '$' !in PasswordOrEmpty(password) ==> '$' !in SafePassword(password)
  {
    if '$' !in PasswordOrEmpty(password) {
      QuoteEachKeepsCharacters(PasswordOrEmpty(password), '$');
    }
  }

  /** The runner's rendering puts the placeholder itself where a password
      `a$&b` should go. */
  lemma DollarAmpersandIsNotLiteral()
    ensures RenderCommandAsWritten(Placeholder, Some("a$&b")) == "a" + Placeholder + "b"
    ensures RenderCommand(Placeholder, Some("a$&b")) == "a$&b"
  {
    assert QuoteEach("a$&b") == "a$&b" by {
      assert QuoteEach("") == "";
      assert QuoteEach("b") == "b";
      assert QuoteEach("&b") == "&b";
      assert QuoteEach("$&b") == "$&b";
    }
    var t := "a$&b";
    assert Substitution(Placeholder, Placeholder, 0, "b") == "b";
    assert Substitution(Placeholder, Placeholder, 0, "$&b") == Placeholder + "b";
    assert Substitution(Placeholder, Placeholder, 0, t) == "a" + Placeholder + "b";
    assert Placeholder[0..|Placeholder|] == Placeholder;
    assert ReplaceAllFrom(Placeholder, Placeholder, t, |Placeholder|) == "";
    assert Placeholder[..|Placeholder|] == Placeholder;
    assert Placeholder[|Placeholder|..] == "";
  }

  // ---------------------------------------------------------------------
  // POSIX quoting
  // ---------------------------------------------------------------------

  function Prepend(c: char, v: Option<string>): Option<string> {
    match v
    case None => None
    case Some(s) => Some([c] + s)
  }

  function PrependAll(p: string, v: Option<string>): Option<string> {
    match v
    case None => None
    case Some(s) => Some(p + s)
  }

  /**
   * The value of a shell word that is quoted throughout, under the rules of
   * POSIX Shell Command Language (IEEE Std 1003.1-2017), section 2.2.2
   * (inside single quotes every character up to the next `'` is literal) and
   * section 2.2.1 (outside them a backslash keeps the next character literal,
   * and a backslash before a newline is a line continuation). `inQuotes` is
   * whether a single-quoted string is open. None: the word has a character
   * that is not quoted (the shell might interpret it), an unterminated quote,
   * or a trailing backslash.
   */
  function Unquote(w: string, inQuotes: bool): Option<string>
    decreases |w|
  {
    if w == [] then (if inQuotes then None else Some([]))
    else if inQuotes then
      (if w[0] == '\'' then Unquote(w[1..], false) else Prepend(w[0], Unquote(w[1..], true)))
    else if w[0] == '\'' then Unquote(w[1..], true)
    else if w[0] == '\\' && |w| >= 2 then
      (if w[1] == '\n' then Unquote(w[2..], false) else Prepend(w[1], Unquote(w[2..], false)))
    else None
  }

  /** The shell's value of a word read from its start. */
  function ShellWord(w: string): Option<string> {
    Unquote(w, false)
  }

  /** The escape of one quote, read inside an open quoted string, yields that
      quote and leaves the quoted string open again. */
  lemma UnquoteEscapedQuote(tail: string)
    ensures Unquote(QuoteEscape + tail, true) == Prepend('\'', Unquote(tail, true))
  {
    var w := QuoteEscape + tail;
    assert w[0] == '\'';
    assert w[1..] == "\\'" + ("'" + tail);
    assert Unquote(w, true) == Unquote(w[1..], false);
    assert w[1..][0] == '\\' && w[1..][1] == '\'';
    assert w[1..][2..] == "'" + tail;
    assert Unquote(w[1..], false) == Prepend('\'', Unquote("'" + tail, false));
    assert ("'" + tail)[1..] == tail;
  }

  lemma PrependAllCons(p: string, v: Option<string>)
    requires p != []
    ensures PrependAll(p, v) == Prepend(p[0], PrependAll(p[1..], v))
  {
    match v
    case None =>
    case Some(s) => assert [p[0]] + (p[1..] + s) == p + s;
  }

  lemma {:induction false} UnquoteQuoteEach(p: string, rest: string)
    ensures Unquote(QuoteEach(p) + rest, true) == PrependAll(p, Unquote(rest, true))
    decreases |p|
  {
    if p == [] {
      assert QuoteEach(p) + rest == rest;
      match Unquote(rest, true)
      case None =>
      case Some(v) => assert p + v == v;
    } else {
      var tail := QuoteEach(p[1..]) + rest;
      UnquoteQuoteEach(p[1..], rest);
      PrependAllCons(p, Unquote(rest, true));
      if p[0] == '\'' {
        assert QuoteEach(p) + rest == QuoteEscape + tail;
        UnquoteEscapedQuote(tail);
      } else {
        var w := QuoteEach(p) + rest;
        assert w == [p[0]] + tail;
        assert w[1..] == tail;
      }
    }
  }

  /** Round trip: the single-quoted escape of any password is a shell word
      whose value is exactly that password, every character of it quoted. */
  lemma QuotedRoundTrip(p: string)
    ensures ShellWord("'" + QuoteEach(p) + "'") == Some(p)
  {
    var w := "'" + QuoteEach(p) + "'";
    assert w[1..] == QuoteEach(p) + "'";
    UnquoteQuoteEach(p, "'");
    assert "'"[1..] == [];
    assert p + [] == p;
  }

  /** Round trip through the whole rendering: the template `'{{PASSWORD}}'`
      renders to a shell word whose value is the target's password (or "" when
      it has none). For the runner's own rendering this needs a password
      without `$`. */
  lemma RenderRoundTrip(password: Option<string>)
    ensures ShellWord(RenderCommand("'" + Placeholder + "'", password)) == Some(PasswordOrEmpty(password))
    ensures '$' !in PasswordOrEmpty(password) ==>
      ShellWord(RenderCommandAsWritten("'" + Placeholder + "'", password)) == Some(PasswordOrEmpty(password))
  {
    var p := PasswordOrEmpty(password);
    var text := SafePassword(password);
    var template := "'" + Placeholder + "'";
    forall j: nat | j < |"'"| ensures !OccursAt("'" + Placeholder + "'", Placeholder, j) {
      assert template[0] != Placeholder[0];
    }
    ReplaceLiteralLeftmost("'", "'", Placeholder, text);
    assert ReplaceLiteral("'", Placeholder, text) == "'";
    QuotedRoundTrip(p);
  }

  /** The example password `it's"me` survives rendering into `echo '{{PASSWORD}}'`. */
  lemma QuoteInPasswordExample()
    ensures QuoteEach("it's\"me") == "it'\\''s\"me"
    ensures ShellWord("'" + QuoteEach("it's\"me") + "'") == Some("it's\"me")
  {
    QuotedRoundTrip("it's\"me");
    assert QuoteEach("me") == "me";
    assert QuoteEach("\"me") == "\"me";
    assert QuoteEach("s\"me") == "s\"me";
    assert QuoteEach("'s\"me") == "'\\''s\"me";
    assert QuoteEach("t's\"me") == "t'\\''s\"me";
  }
}

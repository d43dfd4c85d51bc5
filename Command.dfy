/**
 * Building the ADB command of one poll: the keyword keys, each stripped of
 * surrounding whitespace, are joined with `|` into the grep token, and the
 * token is substituted into the command template by Python's `str.format`
 * with the single named argument `grep_keywords`.
 *
 * Only the part of `str.format` such a template can use is modelled: the
 * replacement field `{grep_keywords}`, and the escapes `{{` and `}}`. Every
 * other replacement field, and every brace without its partner, makes
 * `str.format` raise.
 */
module Command {
  import opened Wrappers
  import opened Text
  import opened Keywords

  /** The only keyword argument the template is formatted with. */
  const FieldName: string := "grep_keywords"

  /** `'|'.join(f'{keyword.strip()}' for keyword in keywords.keys())`. */
  function GrepToken(keys: seq<string>): string {
    Join("|", StrippedKeys(keys))
  }

  function StrippedKeys(keys: seq<string>): (r: seq<string>)
    ensures |r| == |keys|
    ensures forall i :: 0 <= i < |r| ==> r[i] == Strip(keys[i])
  {
    seq(|keys|, i requires 0 <= i < |keys| => Strip(keys[i]))
  }

  /**
   * The grep token is empty for no keywords; when no stripped key holds a
   * `|`, it holds exactly one `|` less than there are keys, and splitting it
   * on `|` gives back the stripped keys in mapping order.
   */
  lemma GrepTokenShape(keys: seq<string>)
    ensures keys == [] ==> GrepToken(keys) == ""
    ensures keys != [] && (forall i :: 0 <= i < |keys| ==> '|' !in Strip(keys[i])) ==>
              && Count('|', GrepToken(keys)) == |keys| - 1
              && Split(GrepToken(keys), '|') == StrippedKeys(keys)
  {
    if keys != [] && (forall i :: 0 <= i < |keys| ==> '|' !in Strip(keys[i])) {
      SplitJoin('|', StrippedKeys(keys));
    }
  }

  /** One element of a parsed template: a literal character or the `{grep_keywords}` field. */
  datatype Piece = Literal(c: char) | Field

  /** Why `str.format` raises on a template. */
  datatype FormatError =
    | SingleOpen              // a `{` at the very end
    | SingleClose             // a `}` not followed by `}`
    | Unterminated            // a `{` opening a field with no `}` after it
    | UnexpectedOpen          // a `{` inside a field name
    | UnknownField(name: string)  // a field other than `{grep_keywords}`

  /** The text of the exception `str.format` raises, as `str(e)` gives it. */
  function ErrorMessage(e: FormatError): string {
    match e
    case SingleOpen => "Single '{' encountered in format string"
    case SingleClose => "Single '}' encountered in format string"
    case Unterminated => "expected '}' before end of string"
    case UnexpectedOpen => "unexpected '{' in field name"
    case UnknownField(name) =>
      // An empty or all-digit name is a position among no positional
      // arguments (an `IndexError`); any other name is a missing keyword
      // argument (a `KeyError`, whose text is the name's `repr`).
      if AllDigits(name) then IndexMessage(DecimalValue(name)) else Repr(name)
  }

  /** The `IndexError` text for positional argument `n`. */
  function IndexMessage(n: nat): string {
    "Replacement index " + DecimalText(n) + " out of range for positional args tuple"
  }

  /**
   * The errors for unknown fields name them as Python does: `{}` and `{n}`,
   * n written in ASCII digits, report the position n; a plain name that is
   * not made of ASCII digits is reported in single quotes.
   */
  lemma ErrorMessageText(n: nat, name: string)
    ensures ErrorMessage(UnknownField("")) == IndexMessage(0)
    ensures ErrorMessage(UnknownField(DecimalText(n))) == IndexMessage(n)
    ensures !AllDigits(name) && PlainText(name) ==> ErrorMessage(UnknownField(name)) == "'" + name + "'"
  {
    DecimalRoundTrip(n);
    if !AllDigits(name) && PlainText(name) {
      ReprPlain(name);
    }
  }

  predicate IsBrace(c: char) {
    c == '{' || c == '}'
  }

  /** The first brace in `s`, where the field name that starts `s` ends, if any. */
  function FieldEnd(s: string): (r: Option<nat>)
    ensures r.None? <==> forall i :: 0 <= i < |s| ==> !IsBrace(s[i])
    ensures r.Some? ==> r.value < |s| && IsBrace(s[r.value]) && forall i :: 0 <= i < r.value ==> !IsBrace(s[i])
    decreases |s|
  {
    if s == [] then None
    else if IsBrace(s[0]) then Some(0)
    else match FieldEnd(s[1..])
      case None => None
      case Some(k) => Some(k + 1)
  }

  /** The first brace of `a + [c] + b` is `c` when `a` holds none. */
  lemma FieldEndAfter(a: string, c: char, b: string)
    requires IsBrace(c) && forall i :: 0 <= i < |a| ==> !IsBrace(a[i])
    ensures FieldEnd(a + [c] + b) == Some(|a|)
  {
    var s := a + [c] + b;
    assert s[|a|] == c;
    assert forall j :: 0 <= j < |a| ==> s[j] == a[j];
  }

  function Prepend(p: Piece, rest: Result<seq<Piece>, FormatError>): Result<seq<Piece>, FormatError> {
    match rest
    case Ok(ps) => Ok([p] + ps)
    case Err(e) => Err(e)
  }

  /**
   * What the scan of `str.format` reads at the front of a non-empty template:
   * one piece and how many characters spell it, or the error it raises there.
   */
  function Scan(template: string): (r: Result<(Piece, nat), FormatError>)
    requires template != []
    ensures r.Ok? ==> 0 < r.value.1 <= |template|
  {
    if template[0] == '{' then
      if |template| >= 2 && template[1] == '{' then Ok((Literal('{'), 2))
      else match FieldEnd(template[1..])
        case None => if |template| == 1 then Err(SingleOpen) else Err(Unterminated)
        case Some(k) =>
          if template[k + 1] == '{' then Err(UnexpectedOpen)
          else if template[1..k + 1] == FieldName then Ok((Field, k + 2))
          else Err(UnknownField(template[1..k + 1]))
    else if template[0] == '}' then
      if |template| >= 2 && template[1] == '}' then Ok((Literal('}'), 2)) else Err(SingleClose)
    else Ok((Literal(template[0]), 1))
  }

  /** The left-to-right scan `str.format` makes of its template. */
  function Parse(template: string): Result<seq<Piece>, FormatError>
    decreases |template|
  {
    if template == [] then Ok([])
    else match Scan(template)
      case Err(e) => Err(e)
      case Ok((p, n)) => Prepend(p, Parse(template[n..]))
  }

  /** The formatted text of a parsed template: literals as they are, the field as the token. */
  function Render(pieces: seq<Piece>, token: string): string
    decreases |pieces|
  {
    if pieces == [] then ""
    else (match pieces[0] case Literal(c) => [c] case Field => token) + Render(pieces[1..], token)
  }

  /** `template.format(grep_keywords=token)`. */
  function Format(template: string, token: string): Result<string, FormatError> {
    match Parse(template)
    case Ok(pieces) => Ok(Render(pieces, token))
    case Err(e) => Err(e)
  }

  /** The command of one poll: the template formatted with the grep token of the keyword keys. */
  function BuildCommand(template: string, keywords: KeywordMap): Result<string, FormatError> {
    Format(template, GrepToken(Keys(keywords)))
  }

  /** How one piece is written in a template; braces are doubled. */
  function Spelling(p: Piece): string {
    match p
    case Literal(c) => if c == '{' then "{{" else if c == '}' then "}}" else [c]
    case Field => "{" + FieldName + "}"
  }

  /** The template that parses to `pieces`. */
  function Unparse(pieces: seq<Piece>): string
    decreases |pieces|
  {
    if pieces == [] then "" else Spelling(pieces[0]) + Unparse(pieces[1..])
  }

  /** The scan reads the spelling of the field off the front of a template as the field. */
  lemma ScanField(rest: string)
    ensures Scan(Spelling(Field) + rest) == Ok((Field, |Spelling(Field)|))
  {
    var t := Spelling(Field) + rest;
    assert t[1..] == FieldName + ['}'] + rest;
    FieldEndAfter(FieldName, '}', rest);
    assert t[1..|FieldName| + 1] == FieldName;
    assert t[0] == '{' && t[1] == 'g';
  }

  /** The scan reads the spelling of a literal off the front of a template as that literal. */
  lemma ScanLiteral(c: char, rest: string)
    ensures Scan(Spelling(Literal(c)) + rest) == Ok((Literal(c), |Spelling(Literal(c))|))
  {
    var t := Spelling(Literal(c)) + rest;
    assert t[0] == c;
    if c == '{' || c == '}' {
      assert t[1] == c;
    }
  }

  /** The scan reads the spelling of any piece off the front of a template as that piece. */
  lemma ScanSpelling(p: Piece, rest: string)
    ensures Scan(Spelling(p) + rest) == Ok((p, |Spelling(p)|))
  {
    match p
    case Field => ScanField(rest);
    case Literal(c) => ScanLiteral(c, rest);
  }

  /** What the scan reads is spelled by the characters it reads. */
  lemma ScanSpelled(template: string)
    requires template != [] && Scan(template).Ok?
    ensures template[..Scan(template).value.1] == Spelling(Scan(template).value.0)
  {
    if template[0] == '{' && !(|template| >= 2 && template[1] == '{') {
      var k := FieldEnd(template[1..]).value;
      assert template[1..][k] == '}';
      assert template[..k + 2] == template[..1] + template[1..k + 1] + template[k + 1..k + 2];
    }
  }

  /** A successful scan step: the piece read, then the parse of the rest. */
  lemma ParseStep(template: string)
    requires template != [] && Scan(template).Ok?
    ensures Parse(template) == Prepend(Scan(template).value.0, Parse(template[Scan(template).value.1..]))
  {
  }

  lemma UnparseCons(p: Piece, pieces: seq<Piece>)
    ensures Unparse([p] + pieces) == Spelling(p) + Unparse(pieces)
  {
    assert ([p] + pieces)[1..] == pieces;
  }

  /** Every sequence of pieces is spelled by a template that parses back to it. */
  lemma {:induction false} ParseUnparse(pieces: seq<Piece>)
    ensures Parse(Unparse(pieces)) == Ok(pieces)
    decreases |pieces|
  {
    if pieces != [] {
      var p, rest := pieces[0], Unparse(pieces[1..]);
      var t := Spelling(p) + rest;
      assert pieces == [p] + pieces[1..];
      UnparseCons(p, pieces[1..]);
      ScanSpelling(p, rest);
      ParseStep(t);
      assert t[|Spelling(p)|..] == rest;
      ParseUnparse(pieces[1..]);
    }
  }

  /** A template that parses is the spelling of what it parses to. */
  lemma {:induction false} UnparseParse(template: string)
    requires Parse(template).Ok?
    ensures Unparse(Parse(template).value) == template
    decreases |template|
  {
    if template != [] {
      var p, n := Scan(template).value.0, Scan(template).value.1;
      var rest := template[n..];
      ParseStep(template);
      var tail := Parse(rest).value;
      calc {
        Unparse(Parse(template).value);
        Unparse([p] + tail);
        { UnparseCons(p, tail); }
        Spelling(p) + Unparse(tail);
        { UnparseParse(rest); ScanSpelled(template); }
        template[..n] + rest;
        template;
      }
    }
  }

  /**
   * Formatting succeeds exactly on the templates that spell some sequence of
   * pieces, and then yields that sequence with every `{grep_keywords}`
   * replaced by the token and every doubled brace written once.
   */
  lemma FormatIff(template: string, token: string)
    ensures Format(template, token).Ok? <==> exists pieces :: Unparse(pieces) == template
    ensures forall pieces :: Unparse(pieces) == template ==>
              Format(template, token) == Ok(Render(pieces, token))
  {
    if Parse(template).Ok? {
      UnparseParse(template);
    }
    forall pieces | Unparse(pieces) == template
      ensures Format(template, token) == Ok(Render(pieces, token))
    {
      ParseUnparse(pieces);
    }
  }

  /** A field name holding a `{` before it is closed fails at once. */
  lemma OpenInLeadingField(name: string, rest: string)
    requires name != [] && forall i :: 0 <= i < |name| ==> !IsBrace(name[i])
    ensures Parse("{" + name + "{" + rest) == Err(UnexpectedOpen)
  {
    var t := "{" + name + "{" + rest;
    assert t[1..] == name + ['{'] + rest;
    FieldEndAfter(name, '{', rest);
    assert t[0] == '{' && t[1] == name[0] && t[|name| + 1] == '{';
  }

  /** The pieces read so far, ahead of the outcome of scanning the rest. */
  function Extend(pieces: seq<Piece>, rest: Result<seq<Piece>, FormatError>): Result<seq<Piece>, FormatError> {
    match rest
    case Ok(more) => Ok(pieces + more)
    case Err(e) => Err(e)
  }

  /** The scan reads a spelled piece first, then goes on with what follows it. */
  lemma ParseSpelled(p: Piece, rest: string)
    ensures Parse(Spelling(p) + rest) == Prepend(p, Parse(rest))
  {
    var t := Spelling(p) + rest;
    ScanSpelling(p, rest);
    ParseStep(t);
    assert t[|Spelling(p)|..] == rest;
  }

  lemma PrependExtend(p: Piece, pieces: seq<Piece>, rest: Result<seq<Piece>, FormatError>)
    ensures Prepend(p, Extend(pieces, rest)) == Extend([p] + pieces, rest)
  {
    if rest.Ok? {
      assert [p] + (pieces + rest.value) == ([p] + pieces) + rest.value;
    }
  }

  /** The scan reads the spelled pieces first, then goes on with what follows them. */
  lemma {:induction false} ParseAfter(pieces: seq<Piece>, rest: string)
    ensures Parse(Unparse(pieces) + rest) == Extend(pieces, Parse(rest))
    decreases |pieces|
  {
    if pieces == [] {
      assert Unparse(pieces) + rest == rest;
      if Parse(rest).Ok? {
        assert pieces + Parse(rest).value == Parse(rest).value;
      }
    } else {
      var p, tail := pieces[0], Unparse(pieces[1..]);
      assert Unparse(pieces) + rest == Spelling(p) + (tail + rest);
      ParseSpelled(p, tail + rest);
      ParseAfter(pieces[1..], rest);
      PrependExtend(p, pieces[1..], Parse(rest));
      assert [p] + pieces[1..] == pieces;
    }
  }

  /** Text that formats is read first; the outcome then rests on what follows it. */
  lemma ParsePrefix(prefix: string, rest: string)
    requires Parse(prefix).Ok?
    ensures Parse(prefix + rest) == Extend(Parse(prefix).value, Parse(rest))
  {
    UnparseParse(prefix);
    ParseAfter(Parse(prefix).value, rest);
  }

  /**
   * A `{` that opens a field and reappears before the field is closed makes
   * formatting fail with "unexpected '{' in field name", whatever text that
   * formats comes before it and whatever follows.
   */
  lemma OpenInFieldName(prefix: string, name: string, rest: string, token: string)
    requires Parse(prefix).Ok?
    requires name != [] && forall i :: 0 <= i < |name| ==> !IsBrace(name[i])
    ensures Format(prefix + ("{" + name + "{" + rest), token) == Err(UnexpectedOpen)
  {
    OpenInLeadingField(name, rest);
    ParsePrefix(prefix, "{" + name + "{" + rest);
  }

  /** A template without braces is used verbatim, whatever the token. */
  lemma {:induction false} NoBracesVerbatim(template: string, token: string)
    requires '{' !in template && '}' !in template
    ensures Format(template, token) == Ok(template)
    decreases |template|
  {
    if template != [] {
      NoBracesVerbatim(template[1..], token);
      assert template == [template[0]] + template[1..];
    }
  }
}

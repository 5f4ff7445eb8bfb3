/** One quoted field of a frontend log line: redacted, flattened to one line, escaped and bounded in bytes. */
module ErrorFields {
  import opened Basics

  const REDACTION_INPUT_BYTES: nat := 8192

  /** Bytes of one scalar value in UTF-8 (section 3 of RFC 3629). */
  function Utf8Len(c: char): (n: nat)
    ensures 1 <= n <= 4
  {
    if c < '\U{0080}' then 1
    else if c < '\U{0800}' then 2
    else if c < '\U{10000}' then 3
    else 4
  }

  function Bytes(s: string): nat {
    if s == "" then 0 else Bytes(s[..|s| - 1]) + Utf8Len(s[|s| - 1])
  }

  /** `char::is_control`: the general category Cc. */
  predicate IsControl(c: char) {
    c <= '\U{001F}' || '\U{007F}' <= c <= '\U{009F}'
  }

  predicate BreaksLine(c: char) {
    IsControl(c) || c == '\U{2028}' || c == '\U{2029}'
  }

  function Sanitized(c: char): char {
    if BreaksLine(c) then ' ' else c
  }

  function SanitizedText(s: string): (t: string)
    ensures |t| == |s| && forall i | 0 <= i < |s| :: t[i] == Sanitized(s[i])
  {
    seq(|s|, i requires 0 <= i < |s| => Sanitized(s[i]))
  }

  predicate NeedsEscape(c: char) {
    c == '"' || c == '\\'
  }

  function EscapedChar(c: char): string {
    if NeedsEscape(c) then ['\\', c] else [c]
  }

  function Escaped(s: string): string {
    if s == "" then "" else Escaped(s[..|s| - 1]) + EscapedChar(s[|s| - 1])
  }

  lemma {:induction false} BytesOfConcat(a: string, b: string)
    ensures Bytes(a + b) == Bytes(a) + Bytes(b)
  {
    if b == "" {
      assert a + b == a;
    } else {
      assert (a + b)[..|a + b| - 1] == a + b[..|b| - 1];
      BytesOfConcat(a, b[..|b| - 1]);
    }
  }

  lemma {:induction false} BytesOfPrefix(s: string, i: nat, j: nat)
    requires i <= j <= |s|
    ensures Bytes(s[..i]) + (j - i) <= Bytes(s[..j])
    decreases j
  {
    if i < j {
      assert s[..j][..j - 1] == s[..j - 1];
      BytesOfPrefix(s, i, j - 1);
    }
  }

  // ---- Cutting at a byte limit ----

  /** `s.is_char_boundary(n)` */
  predicate IsCharBoundary(s: string, n: nat) {
    exists k | 0 <= k <= |s| :: Bytes(s[..k]) == n
  }

  /** How many leading characters fit into `limit` bytes: as many as possible. */
  ghost predicate FitsExactly(s: string, limit: nat, k: nat) {
    && k <= |s|
    && Bytes(s[..k]) <= limit
    && (k < |s| ==> Bytes(s[..k + 1]) > limit)
  }

  function FitCount(s: string, limit: nat): (k: nat)
    ensures FitsExactly(s, limit, k)
  {
    FitFrom(s, limit, 0)
  }

  function FitFrom(s: string, limit: nat, i: nat): (k: nat)
    requires i <= |s| && Bytes(s[..i]) <= limit
    ensures FitsExactly(s, limit, k)
    decreases |s| - i
  {
    if i < |s| && Bytes(s[..i + 1]) <= limit then FitFrom(s, limit, i + 1) else i
  }

  lemma FitIsUnique(s: string, limit: nat, i: nat, j: nat)
    requires FitsExactly(s, limit, i) && FitsExactly(s, limit, j)
    ensures i == j
  {
    if i < j { BytesOfPrefix(s, i + 1, j); }
    if j < i { BytesOfPrefix(s, j + 1, i); }
  }

  /** The bounded input of the redaction: whole characters only. */
  function Head(value: string): string {
    value[..FitCount(value, REDACTION_INPUT_BYTES)]
  }

  /** What the field may show, before escaping and the final bound. */
  function Showable(value: string, redact: string -> string): string {
    SanitizedText(redact(Head(value)))
  }

  /** How much of `s` is shown: the longest prefix whose escaped form fits. */
  ghost predicate ShowsPrefix(s: string, maxBytes: nat, k: nat) {
    && k <= |s|
    && Bytes(Escaped(s[..k])) <= maxBytes
    && (k < |s| ==> Bytes(Escaped(s[..k + 1])) > maxBytes)
  }

  function ShownFrom(s: string, maxBytes: nat, i: nat): (k: nat)
    requires i <= |s| && Bytes(Escaped(s[..i])) <= maxBytes
    ensures ShowsPrefix(s, maxBytes, k)
    decreases |s| - i
  {
    if i < |s| && Bytes(Escaped(s[..i + 1])) <= maxBytes then ShownFrom(s, maxBytes, i + 1) else i
  }

  function Field(value: string, maxBytes: nat, redact: string -> string): string {
    var s := Showable(value, redact);
    Escaped(s[..ShownFrom(s, maxBytes, 0)])
  }

  lemma {:induction false} EscapedBytesGrow(s: string, i: nat, j: nat)
    requires i <= j <= |s|
    ensures Bytes(Escaped(s[..i])) + (j - i) <= Bytes(Escaped(s[..j]))
    decreases j
  {
    hide Bytes, Escaped;
    if i < j {
      EscapedBytesGrow(s, i, j - 1);
      EscapedStep(s, j - 1);
    }
  }

  lemma EscapedStep(s: string, k: nat)
    requires k < |s|
    ensures Escaped(s[..k + 1]) == Escaped(s[..k]) + EscapedChar(s[k])
    ensures Bytes(Escaped(s[..k + 1])) ==
            Bytes(Escaped(s[..k])) + Utf8Len(s[k]) + if NeedsEscape(s[k]) then 1 else 0
  {
    assert s[..k + 1][..k] == s[..k];
    BytesOfConcat(Escaped(s[..k]), EscapedChar(s[k]));
    var e := EscapedChar(s[k]);
    assert Bytes([s[k]]) == Utf8Len(s[k]) by {
      assert [s[k]][..0] == "";
    }
    if NeedsEscape(s[k]) {
      assert e[..1] == ['\\'];
      assert ['\\'][..0] == "";
    }
  }

  lemma ShownIsUnique(s: string, maxBytes: nat, i: nat, j: nat)
    requires ShowsPrefix(s, maxBytes, i) && ShowsPrefix(s, maxBytes, j)
    ensures i == j
  {
    if i < j { EscapedBytesGrow(s, i + 1, j); }
    if j < i { EscapedBytesGrow(s, j + 1, i); }
  }

  /** `frontend_error_field` */
  method FrontendErrorField(value: string, maxBytes: nat, redact: string -> string) returns (field: string)
    ensures field == Field(value, maxBytes, redact)
  {
    hide Sanitized, NeedsEscape, Utf8Len, EscapedChar, Head;
    var head := CutAtBoundary(value);
    var text := redact(head);
    field := "";
    assert text[..0] == "";
    ghost var shown := SanitizedText(text);
    assert shown[..0] == "";
    var i := 0;
    while i < |text|
      invariant 0 <= i <= |text|
      invariant field == Escaped(shown[..i]) && Bytes(field) <= maxBytes
    {
      var ch := Sanitized(text[i]);
      EscapedStep(shown, i);
      if Bytes(field) + Utf8Len(ch) + (if NeedsEscape(ch) then 1 else 0) > maxBytes {
        break;
      }
      field := field + EscapedChar(ch);
      i := i + 1;
    }
    ShownIsUnique(shown, maxBytes, i, ShownFrom(shown, maxBytes, 0));
  }

  /** Step back from the byte limit to the nearest character boundary. */
  method CutAtBoundary(value: string) returns (head: string)
    ensures head == Head(value)
  {
    var end := if Bytes(value) < REDACTION_INPUT_BYTES then Bytes(value) else REDACTION_INPUT_BYTES;
    assert value[..|value|] == value;
    assert value[..0] == "";
    forall k | 0 <= k <= |value| ensures Bytes(value[..k]) <= Bytes(value) {
      BytesOfPrefix(value, k, |value|);
    }
    while !IsCharBoundary(value, end)
      invariant 0 <= end <= REDACTION_INPUT_BYTES && end <= Bytes(value)
      invariant forall k | 0 <= k <= |value| && Bytes(value[..k]) <= REDACTION_INPUT_BYTES :: Bytes(value[..k]) <= end
      decreases end
    {
      assert end != 0 by {
        assert Bytes(value[..0]) == 0;
      }
      end := end - 1;
    }
    var k :| 0 <= k <= |value| && Bytes(value[..k]) == end;
    if k < |value| {
      BytesOfPrefix(value, k, k + 1);
    }
    FitIsUnique(value, REDACTION_INPUT_BYTES, k, FitCount(value, REDACTION_INPUT_BYTES));
    head := value[..k];
  }

  // ---- Reading a field back ----

  /** Read a quoted field up to its closing quote: its content, and the rest of the line. */
  function ReadField(s: string): Option<(string, string)> {
    if s == "" then None
    else if s[0] == '"' then Some(("", s[1..]))
    else if s[0] == '\\' then
      if |s| < 2 then None
      else match ReadField(s[2..])
        case None => None
        case Some((content, rest)) => Some(([s[1]] + content, rest))
    else match ReadField(s[1..])
      case None => None
      case Some((content, rest)) => Some(([s[0]] + content, rest))
  }

  lemma {:induction false} EscapedFromTheFront(s: string)
    requires s != ""
    ensures Escaped(s) == EscapedChar(s[0]) + Escaped(s[1..])
  {
    hide EscapedChar;
    if |s| == 1 {
      assert s[..0] == "" && s[1..] == "";
      assert Escaped("") == "";
    } else {
      var front, last := s[..|s| - 1], EscapedChar(s[|s| - 1]);
      assert Escaped(s) == Escaped(front) + last;
      assert Escaped(s[1..]) == Escaped(front[1..]) + last by {
        assert s[1..][..|s| - 2] == front[1..];
      }
      EscapedFromTheFront(front);
      hide Escaped;
      assert front[0] == s[0];
    }
  }

  /** An escaped text is never cut inside an escape: it reads back, whatever follows its closing quote. */
  lemma {:induction false} EscapedReadsBack(s: string, rest: string)
    ensures ReadField(Escaped(s) + "\"" + rest) == Some((s, rest))
  {
    var line := Escaped(s) + "\"" + rest;
    if s == "" {
      assert line[0] == '"' && line[1..] == rest;
    } else {
      EscapedFromTheFront(s);
      EscapedReadsBack(s[1..], rest);
      var tail := Escaped(s[1..]) + "\"" + rest;
      assert line == EscapedChar(s[0]) + tail;
      assert s == [s[0]] + s[1..];
      if NeedsEscape(s[0]) {
        assert line[0] == '\\' && line[1] == s[0] && line[2..] == tail;
      } else {
        assert line[0] == s[0] && line[1..] == tail;
      }
    }
  }

  lemma {:induction false} EscapedIsOneLine(s: string)
    requires forall c | c in s :: !BreaksLine(c)
    ensures forall c | c in Escaped(s) :: !BreaksLine(c)
  {
    if s != "" {
      EscapedIsOneLine(s[..|s| - 1]);
    }
  }

  /**
   A field stays within its bound, holds no line break, and reads back as a prefix of the sanitised redacted
   text: the longest one whose escaped form fits.
   */
  lemma FieldsAreFaithful(value: string, maxBytes: nat, redact: string -> string, rest: string)
    returns (shown: string)
    ensures Bytes(Field(value, maxBytes, redact)) <= maxBytes
    ensures forall c | c in Field(value, maxBytes, redact) :: !BreaksLine(c)
    ensures ReadField(Field(value, maxBytes, redact) + "\"" + rest) == Some((shown, rest))
    ensures shown <= Showable(value, redact)
    ensures |shown| < |Showable(value, redact)| ==>
              Bytes(Escaped(Showable(value, redact)[..|shown| + 1])) > maxBytes
  {
    var s := Showable(value, redact);
    shown := s[..ShownFrom(s, maxBytes, 0)];
    EscapedReadsBack(shown, rest);
    forall c | c in shown ensures !BreaksLine(c) {
      assert !BreaksLine(' ');
    }
    EscapedIsOneLine(shown);
  }

  // ---- What a field shows, without the functions that compute it ----

  /** `shown` is a beginning of `text` on one line: control characters and line separators are spaces, all else stays. */
  predicate Flattens(text: string, shown: string) {
    && |shown| <= |text|
    && forall i | 0 <= i < |shown| ::
         var c := text[i];
         shown[i] == if c <= '\U{001F}' || '\U{007F}' <= c <= '\U{009F}' || c == '\U{2028}' || c == '\U{2029}' then ' ' else c
  }

  ghost predicate ShowsText(field: string, text: string, shown: string, maxBytes: nat) {
    && Flattens(text, shown)
    && (forall rest :: ReadField(field + "\"" + rest) == Some((shown, rest)))
    && Bytes(field) <= maxBytes
    && forall longer | Flattens(text, longer) && |longer| == |shown| + 1 :: Bytes(Escaped(longer)) > maxBytes
  }

  /** The field shows as much as fits of the redaction of the value, of which at most 8192 bytes are looked at. */
  ghost predicate ShowsField(field: string, value: string, maxBytes: nat, redact: string -> string) {
    exists k: nat, shown: string | FitsExactly(value, 8192, k) ::
      ShowsText(field, redact(value[..k]), shown, maxBytes)
  }

  lemma FlattenedIsSanitized(text: string, shown: string)
    ensures Flattens(text, shown) <==> |shown| <= |text| && shown == SanitizedText(text)[..|shown|]
  {
    var s := SanitizedText(text);
    if Flattens(text, shown) {
      forall i | 0 <= i < |shown| ensures shown[i] == s[i] {}
    }
    if |shown| <= |text| && shown == s[..|shown|] {
      forall i | 0 <= i < |shown| ensures shown[i] == Sanitized(text[i]) {
        assert shown[i] == s[..|shown|][i];
      }
    }
  }

  lemma ShownTextShows(text: string, maxBytes: nat, n: nat)
    requires ShowsPrefix(SanitizedText(text), maxBytes, n)
    ensures ShowsText(Escaped(SanitizedText(text)[..n]), text, SanitizedText(text)[..n], maxBytes)
  {
    hide Escaped, Bytes, ReadField, Flattens;
    var s := SanitizedText(text);
    var shown := s[..n];
    FlattenedIsSanitized(text, shown);
    forall rest ensures ReadField(Escaped(shown) + "\"" + rest) == Some((shown, rest)) {
      EscapedReadsBack(shown, rest);
    }
    forall longer | Flattens(text, longer) && |longer| == n + 1 ensures Bytes(Escaped(longer)) > maxBytes {
      FlattenedIsSanitized(text, longer);
    }
  }

  /** Nothing reaches a field but what the redaction lets through. */
  lemma FieldsShowTheRedactedText(value: string, maxBytes: nat, redact: string -> string)
    ensures ShowsField(Field(value, maxBytes, redact), value, maxBytes, redact)
  {
    hide ShownFrom, ShowsText, FitFrom, ReadField, EscapedChar, Sanitized;
    var k := FitCount(value, REDACTION_INPUT_BYTES);
    var text := redact(value[..k]);
    ShownTextShows(text, maxBytes, ShownFrom(SanitizedText(text), maxBytes, 0));
  }

  /** Exactly quotes and backslashes gain a backslash; every other character stands for itself. */
  lemma EscapesAreMinimal(c: char, s: string)
    ensures Escaped("") == ""
    ensures Escaped([c] + s) == (if c == '"' || c == '\\' then ['\\', c] else [c]) + Escaped(s)
  {
    EscapedFromTheFront([c] + s);
    assert ([c] + s)[1..] == s;
  }
}

/**
 * The Prometheus side of the sampler, shared by both versions: the
 * validation of `label_name="label_value"` command-line tokens against the
 * two POSIX regular expressions the source compiles, the ordered label set
 * the accepted tokens are appended to, the `{label, label}` rendering, and
 * the three-line layout of a metric block in the text exposition format.
 */
module Prometheus {
  import opened CLib

  // ---------------------------------------------------------------------
  // The label name: ^[a-zA-Z_][a-zA-Z0-9_]*$ in the C locale

  predicate IsNameStart(c: char) {
    'a' <= c <= 'z' || 'A' <= c <= 'Z' || c == '_'
  }

  predicate IsNameChar(c: char) {
    IsNameStart(c) || '0' <= c <= '9'
  }

  /** The anchored name regex matches the whole of `n`. */
  predicate NameMatches(n: string) {
    |n| >= 1 && IsNameStart(n[0]) && forall k :: 1 <= k < |n| ==> IsNameChar(n[k])
  }

  // ---------------------------------------------------------------------
  // The label value: "..*"$, NOT anchored at the start

  /**
   * The regex matches `v` from position `i`: a quote, one character of any
   * kind, any number of further characters, a quote, then the end of `v`.
   */
  predicate ValueMatchesAt(v: string, i: int) {
    0 <= i && i + 3 <= |v| && v[i] == '"' && v[|v| - 1] == '"'
  }

  /** `regexec` finds a match somewhere in `v`. */
  ghost predicate ValueMatches(v: string) {
    exists i :: ValueMatchesAt(v, i)
  }

  /**
   * The search as a leftmost match proceeds: the first quote of `v` must
   * leave room for one character and the closing quote, which must be last.
   */
  function ValueAccepted(v: string): bool {
    var q := IndexOf(v, '"');
    q.Some? && q.value + 3 <= |v| && v[|v| - 1] == '"'
  }

  lemma ValueAcceptedIsMatch(v: string)
    ensures ValueAccepted(v) <==> ValueMatches(v)
  {
    var q := IndexOf(v, '"');
    if ValueAccepted(v) {
      assert ValueMatchesAt(v, q.value);
    }
    if ValueMatches(v) {
      var i :| ValueMatchesAt(v, i);
      assert v[i] == '"';
    }
  }

  /** The value regex is not "wrapped in quotes": text before the first quote, and `"""`, pass; `""` does not. */
  lemma ValueRegexExamples()
    ensures ValueMatches("x\"a\"")
    ensures ValueMatches("\"\"\"")
    ensures ValueMatches("\"a=b\"")
    ensures !ValueMatches("\"\"")
    ensures !ValueMatches("\"abc")
  {
    assert ValueMatchesAt("x\"a\"", 1);
    assert ValueMatchesAt("\"\"\"", 0);
    assert ValueMatchesAt("\"a=b\"", 0);
  }

  // ---------------------------------------------------------------------
  // Checking one token

  /** The outcome of checking one token, and the exit code the source uses for it. */
  datatype LabelCheck = Accepted | MissingSeparator | InvalidName | InvalidValue {
    function ExitCode(): int {
      match this
      case Accepted => 0
      case MissingSeparator => 4
      case InvalidName => 6
      case InvalidValue => 8
    }
  }

  /**
   * `check_and_save_prometheus_label` (and `check_prometheus_label`) without
   * the store: split at the first `=`, check the part before against the
   * name regex and the part after against the value regex.
   */
  function CheckLabel(token: string): (r: LabelCheck)
    ensures r == MissingSeparator <==> '=' !in token
    ensures r == Accepted ==> |token| >= 5
  {
    match IndexOf(token, '=')
    case None => MissingSeparator
    case Some(i) =>
      if !NameMatches(token[..i]) then InvalidName
      else if !ValueAccepted(token[i + 1..]) then InvalidValue
      else Accepted
  }

  /** Every token that holds an `=` is a name free of `=`, the first `=`, and the rest. */
  lemma SplitAtFirstEquals(token: string) returns (name: string, value: string)
    requires '=' in token
    ensures token == name + "=" + value && '=' !in name
  {
    var i := IndexOf(token, '=').value;
    name, value := token[..i], token[i + 1..];
    assert token == token[..i] + [token[i]] + token[i + 1..];
  }

  /**
   * For `name=value` with no `=` in `name`, the name is checked first and
   * then the value, which may itself hold further `=` signs.
   */
  lemma CheckLabelSplit(name: string, value: string)
    requires '=' !in name
    ensures CheckLabel(name + "=" + value)
         == if !NameMatches(name) then InvalidName
            else if !ValueMatches(value) then InvalidValue
            else Accepted
  {
    var token := name + "=" + value;
    IndexOfAfterPrefix(name, '=', value);
    assert token[..|name|] == name;
    assert token[|name| + 1..] == value;
    ValueAcceptedIsMatch(value);
  }

  lemma CheckLabelAcceptsExamples()
    ensures CheckLabel("zone" + "=" + "\"eu\"") == Accepted
    ensures CheckLabel("a" + "=" + "\"b=c\"") == Accepted
  {
    assert CheckLabel("zone" + "=" + "\"eu\"") == Accepted by {
      CheckLabelSplit("zone", "\"eu\"");
      assert ValueMatchesAt("\"eu\"", 0);
    }
    assert CheckLabel("a" + "=" + "\"b=c\"") == Accepted by {
      CheckLabelSplit("a", "\"b=c\"");
      assert ValueMatchesAt("\"b=c\"", 0);
    }
  }

  lemma CheckLabelNameExamples()
    ensures CheckLabel("" + "=" + "\"v\"") == InvalidName
    ensures CheckLabel("9zone" + "=" + "\"v\"") == InvalidName
  {
    CheckLabelSplit("", "\"v\"");
    CheckLabelSplit("9zone", "\"v\"");
  }

  lemma CheckLabelValueExamples()
    ensures CheckLabel("zone" + "=" + "\"\"") == InvalidValue
    ensures CheckLabel("zone" + "=" + "us") == InvalidValue
  {
    CheckLabelSplit("zone", "\"\"");
    ValueRegexExamples();
    CheckLabelSplit("zone", "us");
  }

  // ---------------------------------------------------------------------
  // The value check as the comment above it and the help text describe it:
  // a non-empty value between quotes, anchored at both ends; and on one
  // line, as the exposition format requires

  /**
   * A value wrapped in quotes, with at least one character between them
   * and no line break (POSIX `.` matches a newline unless the regex is
   * compiled with REG_NEWLINE, which the source does not do).
   */
  predicate QuotedValue(v: string) {
    |v| >= 3 && v[0] == '"' && v[|v| - 1] == '"' && '\n' !in v
  }

  /** The check with the value regex anchored at the start too and kept to one line. */
  function CheckLabelIntended(token: string): (r: LabelCheck)
    ensures r == MissingSeparator <==> '=' !in token
  {
    match IndexOf(token, '=')
    case None => MissingSeparator
    case Some(i) =>
      if !NameMatches(token[..i]) then InvalidName
      else if !QuotedValue(token[i + 1..]) then InvalidValue
      else Accepted
  }

  /** The intended check accepts `name=value` exactly when the name is valid and the value quoted. */
  lemma CheckLabelIntendedSplit(name: string, value: string)
    requires '=' !in name
    ensures CheckLabelIntended(name + "=" + value)
         == if !NameMatches(name) then InvalidName
            else if !QuotedValue(value) then InvalidValue
            else Accepted
  {
    IndexOfAfterPrefix(name, '=', value);
    assert (name + "=" + value)[..|name|] == name;
    assert (name + "=" + value)[|name| + 1..] == value;
  }

  /**
   * The intended check only narrows the source's: every token it accepts
   * the source accepts too, and every token the source rejects it rejects
   * the same way.
   */
  lemma IntendedNarrows(token: string)
    ensures CheckLabelIntended(token) == Accepted ==> CheckLabel(token) == Accepted
    ensures CheckLabel(token) != Accepted ==> CheckLabelIntended(token) == CheckLabel(token)
  {
    match IndexOf(token, '=')
    case None =>
    case Some(i) =>
      var v := token[i + 1..];
      ValueAcceptedIsMatch(v);
      if QuotedValue(v) {
        assert ValueMatchesAt(v, 0);
      }
  }

  /** A label the intended check accepts is a single line of text. */
  lemma {:induction false} IntendedLabelIsOneLine(token: string)
    requires CheckLabelIntended(token) == Accepted
    ensures NoNewline(token)
  {
    var name, value := SplitAtFirstEquals(token);
    CheckLabelIntendedSplit(name, value);
    assert '\n' !in name by {
      forall k | 0 <= k < |name| ensures name[k] != '\n' {
        assert IsNameStart(name[k]) || IsNameChar(name[k]);
      }
    }
    assert token == name + ("=" + value);
  }

  /** Text before the opening quote passes the source's check but not the intended one. */
  lemma UnquotedPrefixAccepted()
    ensures CheckLabel("zone" + "=" + "x\"a\"") == Accepted
    ensures CheckLabelIntended("zone" + "=" + "x\"a\"") == InvalidValue
  {
    CheckLabelSplit("zone", "x\"a\"");
    ValueRegexExamples();
    CheckLabelIntendedSplit("zone", "x\"a\"");
  }

  /**
   * A line break inside the quotes passes the source's check, and the data
   * line that carries the label is then broken in two; the intended check
   * rejects it.
   */
  lemma NewlineLabelAccepted(name: string, value: string, stamp: Option<nat>)
    ensures CheckLabel("a" + "=" + "\"x\ny\"") == Accepted
    ensures CheckLabelIntended("a" + "=" + "\"x\ny\"") == InvalidValue
    ensures !NoNewline(DataLine(name, ["a" + "=" + "\"x\ny\""], value, stamp))
  {
    var v := "\"x\ny\"";
    var l := "a" + "=" + v;
    CheckLabelSplit("a", v);
    assert ValueMatchesAt(v, 0);
    assert NameMatches("a");
    CheckLabelIntendedSplit("a", v);
    assert !QuotedValue(v) by { assert v[2] == '\n'; }
    var d := DataLine(name, [l], value, stamp);
    var r := RenderLabels([l]);
    assert r == "{" + l + "}";
    assert r[5] == '\n';
    assert d[|name| + 5] == r[5];
  }

  // ---------------------------------------------------------------------
  // The token loop at the end of parse_command_line

  datatype LabelsOutcome = AllAccepted(labels: seq<string>) | Rejected(code: int)

  /** Checks `tokens` in order, appending each accepted one; the first rejected one ends it. */
  function AcceptAll(labels: seq<string>, tokens: seq<string>): LabelsOutcome
    decreases |tokens|
  {
    if tokens == [] then AllAccepted(labels)
    else if CheckLabel(tokens[0]) != Accepted then Rejected(CheckLabel(tokens[0]).ExitCode())
    else AcceptAll(labels + [tokens[0]], tokens[1..])
  }

  /**
   * All tokens valid: every one is appended, in argument order, after the
   * labels already there. Otherwise the exit code is that of the first
   * invalid token, whatever follows it.
   */
  lemma {:induction false} AcceptAllMeaning(labels: seq<string>, tokens: seq<string>)
    ensures (forall k :: 0 <= k < |tokens| ==> CheckLabel(tokens[k]) == Accepted)
            ==> AcceptAll(labels, tokens) == AllAccepted(labels + tokens)
    ensures forall j :: (0 <= j < |tokens| && CheckLabel(tokens[j]) != Accepted
                         && (forall k :: 0 <= k < j ==> CheckLabel(tokens[k]) == Accepted))
                        ==> AcceptAll(labels, tokens) == Rejected(CheckLabel(tokens[j]).ExitCode())
    decreases |tokens|
  {
    if tokens != [] {
      AcceptAllMeaning(labels + [tokens[0]], tokens[1..]);
      assert labels + [tokens[0]] + tokens[1..] == labels + tokens;
      forall j | 0 <= j < |tokens| && CheckLabel(tokens[j]) != Accepted
          && (forall k :: 0 <= k < j ==> CheckLabel(tokens[k]) == Accepted)
        ensures AcceptAll(labels, tokens) == Rejected(CheckLabel(tokens[j]).ExitCode())
      {
        if j > 0 {
          assert tokens[1..][j - 1] == tokens[j];
          assert forall k :: 0 <= k < j - 1 ==> tokens[1..][k] == tokens[k + 1];
        }
      }
    }
  }

  /**
   * The converse: a run that keeps every token appended them all, each
   * valid, after the labels already there; a rejection carries one of the
   * three label exit codes.
   */
  lemma {:induction false} AcceptAllOutcome(labels: seq<string>, tokens: seq<string>)
    ensures AcceptAll(labels, tokens).AllAccepted? ==>
      && AcceptAll(labels, tokens).labels == labels + tokens
      && forall k :: 0 <= k < |tokens| ==> CheckLabel(tokens[k]) == Accepted
    ensures AcceptAll(labels, tokens).Rejected? ==> AcceptAll(labels, tokens).code in {4, 6, 8}
    decreases |tokens|
  {
    if tokens != [] && CheckLabel(tokens[0]) == Accepted {
      AcceptAllOutcome(labels + [tokens[0]], tokens[1..]);
      assert labels + [tokens[0]] + tokens[1..] == labels + tokens;
      assert forall k :: 1 <= k < |tokens| ==> tokens[k] == tokens[1..][k - 1];
    }
  }

  // ---------------------------------------------------------------------
  // Rendering the label set

  /** `ls` joined by `sep`: a separator between consecutive elements, none after the last. */
  function Join(ls: seq<string>, sep: string): string
    decreases |ls|
  {
    if |ls| == 0 then ""
    else if |ls| == 1 then ls[0]
    else Join(ls[..|ls| - 1], sep) + sep + ls[|ls| - 1]
  }

  /** Nothing at all for no labels (not `{}`); otherwise the labels in braces, separated by ", ". */
  function RenderLabels(ls: seq<string>): string {
    if |ls| == 0 then "" else "{" + Join(ls, ", ") + "}"
  }

  /** Where element `k` starts in `Join(ls, sep)`. */
  function Offset(ls: seq<string>, sep: string, k: nat): nat
    requires k <= |ls|
  {
    if k == 0 then 0 else Offset(ls, sep, k - 1) + |ls[k - 1]| + |sep|
  }

  lemma {:induction false} OffsetOfPrefix(ls: seq<string>, sep: string, m: nat, k: nat)
    requires k <= m <= |ls|
    ensures Offset(ls[..m], sep, k) == Offset(ls, sep, k)
  {
    if k > 0 {
      OffsetOfPrefix(ls, sep, m, k - 1);
      assert ls[..m][k - 1] == ls[k - 1];
    }
  }

  lemma {:induction false} OffsetMonotone(ls: seq<string>, sep: string, a: nat, b: nat)
    requires a <= b <= |ls|
    ensures Offset(ls, sep, a) <= Offset(ls, sep, b)
    decreases b - a
  {
    if a < b {
      OffsetMonotone(ls, sep, a, b - 1);
    }
  }

  lemma {:induction false} JoinLength(ls: seq<string>, sep: string)
    requires |ls| > 0
    ensures |Join(ls, sep)| == Offset(ls, sep, |ls| - 1) + |ls[|ls| - 1]|
    decreases |ls|
  {
    var n := |ls|;
    if n > 1 {
      var init := ls[..n - 1];
      JoinLength(init, sep);
      OffsetOfPrefix(ls, sep, n - 1, n - 2);
      assert init[n - 2] == ls[n - 2];
    }
  }

  /** Joining the first `m` elements gives a prefix of the whole join. */
  lemma {:induction false} JoinExtends(ls: seq<string>, sep: string, m: nat)
    requires 1 <= m <= |ls|
    ensures Join(ls[..m], sep) <= Join(ls, sep)
    decreases |ls| - m
  {
    if m < |ls| {
      JoinExtends(ls, sep, m + 1);
      assert ls[..m + 1][..m] == ls[..m];
      assert ls[..m + 1][m] == ls[m];
    } else {
      assert ls[..m] == ls;
    }
  }

  /** The join of the first `k + 1` elements ends with element `k`, after one separator. */
  lemma JoinStep(ls: seq<string>, sep: string, k: nat)
    requires 0 < k < |ls|
    ensures Join(ls[..k + 1], sep) == Join(ls[..k], sep) + sep + ls[k]
    ensures |Join(ls[..k], sep)| + |sep| == Offset(ls, sep, k)
  {
    assert ls[..k + 1][..k] == ls[..k];
    assert ls[..k + 1][k] == ls[k];
    JoinLength(ls[..k], sep);
    OffsetOfPrefix(ls, sep, k, k - 1);
    assert ls[..k][k - 1] == ls[k - 1];
  }

  /** Element `k` stands in `Join(ls, sep)` at `Offset(ls, sep, k)`. */
  lemma JoinElement(ls: seq<string>, sep: string, k: nat)
    requires k < |ls|
    ensures Offset(ls, sep, k) + |ls[k]| <= |Join(ls, sep)|
    ensures Join(ls, sep)[Offset(ls, sep, k)..Offset(ls, sep, k) + |ls[k]|] == ls[k]
  {
    var p := Join(ls[..k + 1], sep);
    JoinExtends(ls, sep, k + 1);
    var o := Offset(ls, sep, k);
    if k == 0 {
      assert ls[..1] == [ls[0]];
    } else {
      JoinStep(ls, sep, k);
    }
    assert p[o..o + |ls[k]|] == ls[k];
  }

  /** Exactly one separator follows element `k` when another element comes next. */
  lemma JoinSeparator(ls: seq<string>, sep: string, k: nat)
    requires k + 1 < |ls|
    ensures Offset(ls, sep, k + 1) <= |Join(ls, sep)|
    ensures Join(ls, sep)[Offset(ls, sep, k) + |ls[k]|..Offset(ls, sep, k + 1)] == sep
  {
    var p := Join(ls[..k + 2], sep);
    JoinExtends(ls, sep, k + 2);
    JoinStep(ls, sep, k + 1);
    var q := Join(ls[..k + 1], sep);
    if k == 0 {
      assert ls[..1] == [ls[0]];
    } else {
      JoinStep(ls, sep, k);
    }
    assert |q| == Offset(ls, sep, k) + |ls[k]|;
    assert p[|q|..|q| + |sep|] == sep;
  }

  /**
   * The layout of `Join(ls, sep)`: element `k` stands at `Offset(ls, sep, k)`,
   * exactly one separator follows it when another element comes next, and
   * the last element ends the text.
   */
  lemma JoinLayout(ls: seq<string>, sep: string, k: nat)
    requires k < |ls|
    ensures |Join(ls, sep)| == Offset(ls, sep, |ls| - 1) + |ls[|ls| - 1]|
    ensures Offset(ls, sep, k) + |ls[k]| <= |Join(ls, sep)|
    ensures k + 1 < |ls| ==> Offset(ls, sep, k + 1) <= |Join(ls, sep)|
    ensures Join(ls, sep)[Offset(ls, sep, k)..Offset(ls, sep, k) + |ls[k]|] == ls[k]
    ensures k + 1 < |ls| ==> Join(ls, sep)[Offset(ls, sep, k) + |ls[k]|..Offset(ls, sep, k + 1)] == sep
  {
    JoinLength(ls, sep);
    JoinElement(ls, sep, k);
    if k + 1 < |ls| {
      JoinSeparator(ls, sep, k);
    }
  }

  /** A character that neither the elements nor the separator hold is not in the join. */
  lemma {:induction false} JoinAvoids(ls: seq<string>, sep: string, c: char)
    requires c !in sep
    requires forall k :: 0 <= k < |ls| ==> c !in ls[k]
    ensures c !in Join(ls, sep)
    decreases |ls|
  {
    if |ls| > 1 {
      JoinAvoids(ls[..|ls| - 1], sep, c);
      assert ls[|ls| - 1] == ls[|ls| - 1];
    }
  }

  /**
   * Accepted labels are never empty, so the rendering is empty exactly when
   * there are no labels, and is never the empty braces `{}`.
   */
  lemma RenderNeverEmptyBraces(ls: seq<string>)
    requires forall k :: 0 <= k < |ls| ==> CheckLabel(ls[k]) == Accepted
    ensures RenderLabels(ls) == "" <==> ls == []
    ensures RenderLabels(ls) != "{}"
  {
    if ls != [] {
      JoinLayout(ls, ", ", 0);
      assert |ls[0]| >= 5;
    }
  }

  /** A label passes to the rendering untouched: it is framed by `{`, `, ` or `}` on each side. */
  lemma RenderLayout(ls: seq<string>, k: nat)
    requires k < |ls|
    ensures var r := RenderLabels(ls); var o := 1 + Offset(ls, ", ", k);
      && r[0] == '{' && r[|r| - 1] == '}'
      && o + |ls[k]| < |r|
      && (k + 1 < |ls| ==> o + |ls[k]| + 2 < |r|)
      && r[o..o + |ls[k]|] == ls[k]
      && (k + 1 < |ls| ==> r[o + |ls[k]|..o + |ls[k]| + 2] == ", ")
      && (k + 1 == |ls| ==> o + |ls[k]| == |r| - 1)
  {
    var j := Join(ls, ", ");
    JoinLayout(ls, ", ", k);
    var r := RenderLabels(ls);
    var o := Offset(ls, ", ", k);
    assert r == "{" + j + "}";
    assert r[1 + o..1 + o + |ls[k]|] == j[o..o + |ls[k]|];
    if k + 1 < |ls| {
      assert r[1 + o + |ls[k]|..1 + o + |ls[k]| + 2] == j[o + |ls[k]|..Offset(ls, ", ", k + 1)];
    }
  }

  /**
   * The source hands each label to `printf` as its format string. A label
   * whose quoted value holds `%%` passes validation and is printed with a
   * single `%`.
   */
  lemma {:induction false} PercentLabelMisprinted(name: string, u: string, w: string)
    requires NameMatches(name)
    requires '%' !in name && '%' !in u && '%' !in w && '=' !in name
    ensures CheckLabel(name + "=" + ("\"" + u + "%%" + w + "\"")) == Accepted
    ensures PrintfNoArgs(name + "=" + ("\"" + u + "%%" + w + "\""))
         == Some(name + "=" + ("\"" + u + "%" + w + "\""))
  {
    CheckLabelSplit(name, "\"" + u + "%%" + w + "\"");
    QuotedValueMatches(u, "%%", w);
    QuotedSplit(name, u, "%%", w);
    QuotedSplit(name, u, "%", w);
    PrintfHalvesPercent(name + "=" + "\"" + u, w + "\"");
  }

  /** Any other `%` in an accepted label is a conversion with no argument: undefined behaviour. */
  lemma {:induction false} PercentConversionUndefined(name: string, u: string, c: char, w: string)
    requires NameMatches(name)
    requires '%' !in name && '%' !in u && '=' !in name && c != '%'
    ensures CheckLabel(name + "=" + ("\"" + u + ['%', c] + w + "\"")) == Accepted
    ensures PrintfNoArgs(name + "=" + ("\"" + u + ['%', c] + w + "\"")) == None
  {
    CheckLabelSplit(name, "\"" + u + ['%', c] + w + "\"");
    QuotedValueMatches(u, ['%', c], w);
    QuotedSplit(name, u, ['%', c], w);
    PrintfOtherConversion(name + "=" + "\"" + u, c, w + "\"");
  }

  /**
   * Each label as `printf(label)` prints it, with no arguments: None when
   * one of them makes the call undefined.
   */
  function PrintEachAsFormat(ls: seq<string>): (r: Option<seq<string>>)
    ensures r.Some? ==> |r.value| == |ls| && forall k :: 0 <= k < |ls| ==> PrintfNoArgs(ls[k]) == Some(r.value[k])
    ensures r.None? ==> exists k :: 0 <= k < |ls| && PrintfNoArgs(ls[k]).None?
    ensures (forall k :: 0 <= k < |ls| ==> '%' !in ls[k]) ==> r == Some(ls)
    decreases |ls|
  {
    if ls == [] then Some([])
    else
      var rest := PrintEachAsFormat(ls[1..]);
      assert forall k :: 0 <= k < |ls[1..]| ==> ls[1..][k] == ls[k + 1];
      match PrintfNoArgs(ls[0])
      case None => None
      case Some(h) =>
        (match rest
         case None => None
         case Some(t) =>
           assert ls == [ls[0]] + ls[1..];
           Some([h] + t))
  }

  /**
   * `print_prometheus_labels` as the source writes it, each label passed to
   * `printf` as its format string: undefined exactly when one label's
   * printing is, and the same text as `RenderLabels` when no label holds `%`.
   */
  function RenderLabelsAsWritten(ls: seq<string>): (r: Option<string>)
    ensures r.None? <==> exists k :: 0 <= k < |ls| && PrintfNoArgs(ls[k]).None?
    ensures (forall k :: 0 <= k < |ls| ==> '%' !in ls[k]) ==> r == Some(RenderLabels(ls))
  {
    match PrintEachAsFormat(ls)
    case None => None
    case Some(ps) => Some(RenderLabels(ps))
  }

  /**
   * A single label `name="u%%w"` is printed by the source as `{name="u%w"}`,
   * while the corrected rendering keeps it verbatim.
   */
  lemma PercentLabelRendered(name: string, u: string, w: string)
    requires NameMatches(name)
    requires '%' !in name && '%' !in u && '%' !in w && '=' !in name
    ensures RenderLabelsAsWritten([name + "=" + ("\"" + u + "%%" + w + "\"")])
         == Some("{" + (name + "=" + ("\"" + u + "%" + w + "\"")) + "}")
    ensures RenderLabels([name + "=" + ("\"" + u + "%%" + w + "\"")])
         == "{" + (name + "=" + ("\"" + u + "%%" + w + "\"")) + "}"
  {
    var l := name + "=" + ("\"" + u + "%%" + w + "\"");
    PercentLabelMisprinted(name, u, w);
    assert [l][1..] == [];
  }

  /** A quoted value with at least one character between the quotes matches. */
  lemma QuotedValueMatches(u: string, mid: string, w: string)
    requires |mid| > 0
    ensures ValueMatches("\"" + u + mid + w + "\"")
  {
    var v := "\"" + u + mid + w + "\"";
    assert ValueMatchesAt(v, 0);
  }

  /** A label with `mid` in its quoted value, cut around `mid`. */
  lemma QuotedSplit(name: string, u: string, mid: string, w: string)
    ensures name + "=" + ("\"" + u + mid + w + "\"") == (name + "=" + "\"" + u) + mid + (w + "\"")
  {
  }

  /** The label set that accepted tokens are appended to. */
  class LabelSet {
    var labels: seq<string>

    constructor ()
      ensures labels == []
    {
      labels := [];
    }

    /**
     * `check_and_save_prometheus_label`: returns the exit code (0 when the
     * token was accepted). An accepted token, `=` and all, becomes the new
     * last label; a rejected one leaves the set as it was.
     */
    method CheckAndSave(token: string) returns (code: int)
      modifies this
      ensures code == CheckLabel(token).ExitCode()
      ensures labels == if code == 0 then old(labels) + [token] else old(labels)
    {
      var separator := IndexOf(token, '=');
      if separator.None? {
        return 4;
      }
      var name := token[..separator.value];
      if !NameMatches(name) {
        return 6;
      }
      var value := token[separator.value + 1..];
      if !ValueAccepted(value) {
        return 8;
      }
      labels := labels + [token];
      code := 0;
    }

    /**
     * `print_prometheus_labels`, with each label written as it is (the
     * source passes it to `printf` as a format string; see
     * `PercentLabelMisprinted`). `out` is standard output, which is where
     * the source writes whatever stream it is given.
     */
    method PrintLabels(out: OutputStream)
      modifies out
      ensures out.text == old(out.text) + RenderLabels(labels)
    {
      if |labels| <= 0 {
        return;
      }
      out.Write("{");
      var labelIdx, remainingIdx := 0, |labels|;
      while labelIdx < |labels|
        invariant 0 <= labelIdx <= |labels|
        invariant remainingIdx == |labels| - labelIdx
        invariant out.text == old(out.text) + "{"
          + if labelIdx == 0 then ""
            else Join(labels[..labelIdx], ", ") + if remainingIdx > 0 then ", " else ""
      {
        out.Write(labels[labelIdx]);
        if remainingIdx > 1 {
          out.Write(", ");
        }
        assert labels[..labelIdx + 1][..labelIdx] == labels[..labelIdx];
        labelIdx, remainingIdx := labelIdx + 1, remainingIdx - 1;
      }
      out.Write("}");
      assert labels[..labelIdx] == labels;
    }
  }

  // ---------------------------------------------------------------------
  // One metric block of the text exposition format

  function TypeLine(name: string): (l: string)
    ensures NoNewline(name) ==> NoNewline(l)
  {
    "# TYPE " + name + " gauge"
  }

  function HelpLine(name: string, help: string): (l: string)
    ensures NoNewline(name) && NoNewline(help) ==> NoNewline(l)
  {
    "# HELP " + name + " " + help
  }

  /** The sample line: name, labels, a space, the value, and the epoch-ms timestamp when there is one. */
  function DataLine(name: string, labels: seq<string>, value: string, stamp: Option<nat>): string {
    name + RenderLabels(labels) + " " + value
    + match stamp case None => "" case Some(ms) => " " + DecimalText(ms)
  }

  function MetricBlock(name: string, help: string, labels: seq<string>, value: string, stamp: Option<nat>): string {
    TypeLine(name) + "\n" + HelpLine(name, help) + "\n" + DataLine(name, labels, value, stamp) + "\n"
  }

  /**
   * The pieces in which the source prints a block without timestamp: the
   * TYPE and HELP lines with the metric name, the labels, and the value
   * with its line end.
   */
  lemma MetricBlockPieces(name: string, help: string, labels: seq<string>, value: string)
    ensures MetricBlock(name, help, labels, value, None)
         == (TypeLine(name) + "\n" + HelpLine(name, help) + "\n" + name) + RenderLabels(labels) + (" " + value + "\n")
  {
    var head := TypeLine(name) + "\n" + HelpLine(name, help) + "\n";
    var r := RenderLabels(labels);
    assert DataLine(name, labels, value, None) == name + r + " " + value;
    calc {
      MetricBlock(name, help, labels, value, None);
      head + (name + r + " " + value) + "\n";
      (head + name) + r + (" " + value + "\n");
    }
  }

  /**
   * The pieces in which the source prints a block with a timestamp: as
   * above, then the value, a space and the epoch-ms stamp at the line end.
   */
  lemma MetricBlockStampedPieces(name: string, help: string, labels: seq<string>, value: string, ms: nat)
    ensures MetricBlock(name, help, labels, value, Some(ms))
         == (TypeLine(name) + "\n" + HelpLine(name, help) + "\n" + name) + RenderLabels(labels)
            + (" " + value + " " + DecimalText(ms) + "\n")
  {
    var head := TypeLine(name) + "\n" + HelpLine(name, help) + "\n";
    var r := RenderLabels(labels);
    var stamp := " " + DecimalText(ms);
    assert DataLine(name, labels, value, Some(ms)) == name + r + " " + value + stamp;
    calc {
      MetricBlock(name, help, labels, value, Some(ms));
      head + (name + r + " " + value + stamp) + "\n";
      (head + name) + r + (" " + value + " " + DecimalText(ms) + "\n");
    }
  }

  /** The text made of `ls`, each line ended by a newline. */
  function Unlines(ls: seq<string>): string
    decreases |ls|
  {
    if ls == [] then "" else ls[0] + "\n" + Unlines(ls[1..])
  }

  predicate NoNewline(s: string) {
    '\n' !in s
  }

  /** A text none of whose characters is a line break holds no line break. */
  lemma NoNewlineByChars(l: string)
    requires forall k :: 0 <= k < |l| ==> l[k] != '\n'
    ensures NoNewline(l)
  {
  }

  lemma DataLineIsOneLine(name: string, labels: seq<string>, value: string, stamp: Option<nat>)
    requires NoNewline(name) && NoNewline(value)
    requires forall k :: 0 <= k < |labels| ==> NoNewline(labels[k])
    ensures NoNewline(DataLine(name, labels, value, stamp))
  {
    JoinAvoids(labels, ", ", '\n');
    if stamp.Some? {
      assert forall k :: 0 <= k < |DecimalText(stamp.value)| ==> DecimalText(stamp.value)[k] != '\n';
    }
  }

  /** A block's three lines hold no line break when its parts hold none. */
  lemma MetricLinesAreOneLine(name: string, help: string, labels: seq<string>, value: string, stamp: Option<nat>)
    requires NoNewline(name) && NoNewline(help) && NoNewline(value)
    requires forall k :: 0 <= k < |labels| ==> NoNewline(labels[k])
    ensures var ls := [TypeLine(name), HelpLine(name, help), DataLine(name, labels, value, stamp)];
      forall k :: 0 <= k < |ls| ==> NoNewline(ls[k])
  {
    DataLineIsOneLine(name, labels, value, stamp);
  }

  /**
   * Two blocks with the same labels and stamp are six lines, none holding
   * a line break when the names, help texts, values and labels hold none.
   */
  lemma TwoBlockLines(n1: string, h1: string, v1: string, n2: string, h2: string, v2: string,
                      labels: seq<string>, stamp: Option<nat>)
    ensures var ls := [TypeLine(n1), HelpLine(n1, h1), DataLine(n1, labels, v1, stamp),
                       TypeLine(n2), HelpLine(n2, h2), DataLine(n2, labels, v2, stamp)];
      && MetricBlock(n1, h1, labels, v1, stamp) + MetricBlock(n2, h2, labels, v2, stamp) == Unlines(ls)
      && (NoNewline(n1) && NoNewline(h1) && NoNewline(v1) && NoNewline(n2) && NoNewline(h2) && NoNewline(v2)
          && (forall k :: 0 <= k < |labels| ==> NoNewline(labels[k]))
          ==> forall k :: 0 <= k < |ls| ==> NoNewline(ls[k]))
  {
    var a := [TypeLine(n1), HelpLine(n1, h1), DataLine(n1, labels, v1, stamp)];
    var b := [TypeLine(n2), HelpLine(n2, h2), DataLine(n2, labels, v2, stamp)];
    MetricBlockLines(n1, h1, labels, v1, stamp);
    MetricBlockLines(n2, h2, labels, v2, stamp);
    UnlinesAppend(a, b);
    assert a + b == [a[0], a[1], a[2], b[0], b[1], b[2]];
    if NoNewline(n1) && NoNewline(h1) && NoNewline(v1) && NoNewline(n2) && NoNewline(h2) && NoNewline(v2)
       && (forall k :: 0 <= k < |labels| ==> NoNewline(labels[k])) {
      MetricLinesAreOneLine(n1, h1, labels, v1, stamp);
      MetricLinesAreOneLine(n2, h2, labels, v2, stamp);
    }
  }

  /**
   * Lines free of newlines are recovered from the text they make: two such
   * sequences of lines that give the same text are the same lines.
   */
  lemma {:induction false} UnlinesInjective(ls: seq<string>, ms: seq<string>)
    requires forall k :: 0 <= k < |ls| ==> NoNewline(ls[k])
    requires forall k :: 0 <= k < |ms| ==> NoNewline(ms[k])
    requires Unlines(ls) == Unlines(ms)
    ensures ls == ms
    decreases |ls|
  {
    if ls != [] && ms != [] {
      var x, y := Unlines(ls[1..]), Unlines(ms[1..]);
      IndexOfAfterPrefix(ls[0], '\n', x);
      IndexOfAfterPrefix(ms[0], '\n', y);
      var t := Unlines(ls);
      assert t == ls[0] + "\n" + x && t == ms[0] + "\n" + y;
      assert |ls[0]| == |ms[0]|;
      assert ls[0] == t[..|ls[0]|] == ms[0];
      assert x == t[|ls[0]| + 1..] == y;
      UnlinesInjective(ls[1..], ms[1..]);
      assert ls == [ls[0]] + ls[1..] && ms == [ms[0]] + ms[1..];
    }
  }

  lemma {:induction false} UnlinesAppend(a: seq<string>, b: seq<string>)
    ensures Unlines(a + b) == Unlines(a) + Unlines(b)
    decreases |a|
  {
    if a != [] {
      UnlinesAppend(a[1..], b);
      assert (a + b)[1..] == a[1..] + b;
    } else {
      assert a + b == b;
    }
  }

  /** A metric block is its TYPE line, its HELP line and its data line. */
  lemma MetricBlockLines(name: string, help: string, labels: seq<string>, value: string, stamp: Option<nat>)
    ensures MetricBlock(name, help, labels, value, stamp)
         == Unlines([TypeLine(name), HelpLine(name, help), DataLine(name, labels, value, stamp)])
  {
    var ls := [TypeLine(name), HelpLine(name, help), DataLine(name, labels, value, stamp)];
    assert Unlines(ls[2..]) == ls[2] + "\n" by { assert ls[2..][1..] == []; }
    assert Unlines(ls[1..]) == ls[1] + "\n" + Unlines(ls[2..]) by { assert ls[1..][1..] == ls[2..]; }
  }
}

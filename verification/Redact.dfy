/**
  Redaction: replacing the values of secret parameters in a text.

  `RedactWith` is the cursor loop. It looks for the parameter name by walking
  backwards over the whole text, so nothing in its shape says that the walk
  stays to the right of what has already been copied out. `Redacted` is the
  reference: it only ever sees the part of the text not yet consumed. Everything
  promised about redaction is proved about `Redacted`, and the loop is proved to
  compute it. The names and the placeholder are a parameter, so the proofs say
  which of their properties they rest on; module `Secrets` supplies the real ones.
 */
module Redact {

  datatype Rules = Rules(names: seq<string>, placeholder: string) {
    predicate IsSecret(name: string) {
      exists i | 0 <= i < |names| :: EqIgnoreAsciiCase(names[i], name)
    }

    function Mask(value: string): string {
      if value == "" then "" else placeholder
    }

    /** Every name is an identifier; the placeholder is visible and ends no value. */
    ghost predicate Valid() {
      && (forall i, j | 0 <= i < |names| && 0 <= j < |names[i]| :: IsLowerNameChar(names[i][j]))
      && placeholder != ""
      && (forall i | 0 <= i < |placeholder| :: !EndsValue(placeholder[i]))
    }
  }

  function LowerAscii(c: char): char {
    if 'A' <= c <= 'Z' then (c as int + 32) as char else c
  }

  predicate EqIgnoreAsciiCase(a: string, b: string) {
    |a| == |b| && forall i | 0 <= i < |a| :: LowerAscii(a[i]) == LowerAscii(b[i])
  }

  predicate EndsValue(c: char) {
    || c == '&' || c == '\"' || c == '\'' || c == ')' || c == ' '
    || c == ',' || c == ';' || c == '\n' || c == '\r' || c == '\t'
  }

  predicate IsLowerNameChar(c: char) {
    'a' <= c <= 'z' || c == '_' || c == '-'
  }

  predicate IsNameChar(c: char) {
    'a' <= c <= 'z' || 'A' <= c <= 'Z' || '0' <= c <= '9' || c == '_' || c == '-'
  }

  /** The first `=`, or the length when there is none. */
  function IndexOfEq(s: string): (k: nat)
    ensures k <= |s|
    ensures k < |s| ==> s[k] == '='
    ensures '=' !in s[..k]
  {
    if s == "" || s[0] == '=' then 0
    else
      var k := 1 + IndexOfEq(s[1..]);
      assert s[..k] == [s[0]] + s[1..][..k - 1];
      k
  }

  ghost predicate IsValue(s: string) {
    forall i | 0 <= i < |s| :: !EndsValue(s[i])
  }

  /** Where the value at the front of `s` ends: the first terminator, or the end. */
  function ValueEnd(s: string): (k: nat)
    ensures k <= |s|
    ensures k < |s| ==> EndsValue(s[k])
    ensures IsValue(s[..k])
  {
    if s == "" || EndsValue(s[0]) then 0
    else
      var k := 1 + ValueEnd(s[1..]);
      assert s[..k] == [s[0]] + s[1..][..k - 1];
      k
  }

  /** Where the identifier run that ends `s` begins. */
  function NameStart(s: string): (k: nat)
    ensures k <= |s|
    ensures forall i | k <= i < |s| :: IsNameChar(s[i])
    ensures k > 0 ==> !IsNameChar(s[k - 1])
  {
    if s == "" || !IsNameChar(s[|s| - 1]) then |s| else NameStart(s[..|s| - 1])
  }

  /** The identifier that ends `s`, which is the parameter name when an `=` follows. */
  function NameAtEndOf(s: string): string {
    s[NameStart(s)..]
  }

  /** The next thing in a text: a parameter with what follows it, or no parameter at all. */
  datatype Piece =
    | Tail(text: string)
    | Plain(head: string, rest: string)
    | Secret(head: string, value: string, rest: string)
  {
    function Text(): string {
      match this
      case Tail(text) => text
      case Plain(head, rest) => head + "=" + rest
      case Secret(head, value, rest) => head + "=" + value + rest
    }

    /** What follows the `=`. */
    function Unread(): string
      requires !Tail?
    {
      if Plain? then rest else value + rest
    }

    ghost predicate Valid(rules: Rules) {
      match this
      case Tail(text) => '=' !in text
      case Plain(head, rest) => '=' !in head && !rules.IsSecret(NameAtEndOf(head))
      case Secret(head, value, rest) =>
        && '=' !in head
        && rules.IsSecret(NameAtEndOf(head))
        && IsValue(value)
        && (rest != "" ==> EndsValue(rest[0]))
    }
  }

  function FirstPiece(rules: Rules, head: string, unread: string): Piece {
    if rules.IsSecret(NameAtEndOf(head)) then
      Secret(head, unread[..ValueEnd(unread)], unread[ValueEnd(unread)..])
    else
      Plain(head, unread)
  }

  lemma FirstPieceReads(rules: Rules, head: string, unread: string)
    requires '=' !in head
    ensures FirstPiece(rules, head, unread).Valid(rules)
    ensures FirstPiece(rules, head, unread).Text() == head + "=" + unread
  {
    var v := ValueEnd(unread);
    assert head + "=" + unread[..v] + unread[v..] == head + "=" + unread;
  }

  lemma HasReading(rules: Rules, s: string)
    ensures exists p: Piece :: p.Valid(rules) && p.Text() == s
  {
    var e := IndexOfEq(s);
    var p: Piece;
    if e == |s| {
      assert s == s[..e];
      p := Tail(s);
    } else {
      assert s == s[..e] + "=" + s[e + 1..];
      FirstPieceReads(rules, s[..e], s[e + 1..]);
      p := FirstPiece(rules, s[..e], s[e + 1..]);
    }
    assert p.Valid(rules) && p.Text() == s;
  }

  /** How `s` reads. There is one way only: see `ReadsOneWay`. */
  ghost function Next(rules: Rules, s: string): (p: Piece)
    ensures p.Valid(rules) && p.Text() == s
  {
    HasReading(rules, s);
    var p: Piece :| p.Valid(rules) && p.Text() == s;
    p
  }

  lemma SameSplit(h1: string, t1: string, h2: string, t2: string)
    requires '=' !in h1 && '=' !in h2
    requires h1 + "=" + t1 == h2 + "=" + t2
    ensures h1 == h2 && t1 == t2
  {
    var s := h1 + "=" + t1;
    assert s[|h1|] == '=' && s[|h2|] == '=';
    assert forall i | 0 <= i < |h1| :: s[i] == h1[i] != '=';
    assert forall i | 0 <= i < |h2| :: s[i] == h2[i] != '=';
    assert h1 == s[..|h1|] && t1 == s[|h1| + 1..];
  }

  lemma SameValue(v1: string, r1: string, v2: string, r2: string)
    requires IsValue(v1) && IsValue(v2)
    requires r1 != "" ==> EndsValue(r1[0])
    requires r2 != "" ==> EndsValue(r2[0])
    requires v1 + r1 == v2 + r2
    ensures v1 == v2 && r1 == r2
  {
    var s := v1 + r1;
    assert forall i | 0 <= i < |v1| :: s[i] == v1[i];
    assert forall i | 0 <= i < |v2| :: s[i] == v2[i];
    assert forall i | |v1| <= i < |s| :: s[i] == r1[i - |v1|];
    assert forall i | |v2| <= i < |s| :: s[i] == r2[i - |v2|];
    assert |v1| < |s| ==> s[|v1|] == r1[0];
    assert |v2| < |s| ==> s[|v2|] == r2[0];
    assert v1 == s[..|v1|] && r1 == s[|v1|..];
  }

  /** A text reads as one piece only. */
  lemma ReadsOneWay(rules: Rules, p: Piece, q: Piece)
    requires p.Valid(rules) && q.Valid(rules)
    requires p.Text() == q.Text()
    ensures p == q
  {
    TailHasNoParameter(rules, p);
    TailHasNoParameter(rules, q);
    if !p.Tail? {
      TextSplits(p);
      TextSplits(q);
      SameSplit(p.head, p.Unread(), q.head, q.Unread());
      if p.Secret? {
        SameValue(p.value, p.rest, q.value, q.rest);
      }
    }
  }

  lemma TextSplits(p: Piece)
    requires !p.Tail?
    ensures p.Text() == p.head + "=" + p.Unread()
  {
  }

  lemma NextIs(rules: Rules, p: Piece)
    requires p.Valid(rules)
    ensures Next(rules, p.Text()) == p
  {
    ReadsOneWay(rules, p, Next(rules, p.Text()));
  }

  lemma TailHasNoParameter(rules: Rules, p: Piece)
    requires p.Valid(rules)
    ensures p.Tail? <==> '=' !in p.Text()
  {
    if !p.Tail? {
      assert p.Text()[|p.head|] == '=';
    }
  }

  /** What redaction means, one parameter at a time, on the unread text alone. */
  ghost function Redacted(rules: Rules, s: string): string
    decreases |s|
  {
    match Next(rules, s)
    case Tail(text) => text
    case Plain(head, rest) => head + "=" + Redacted(rules, rest)
    case Secret(head, value, rest) => head + "=" + rules.Mask(value) + Redacted(rules, rest)
  }

  /** Where the cursor can be: a name scan started to its right cannot cross it. */
  ghost predicate IsBarrier(text: string, cursor: nat)
    requires cursor <= |text|
  {
    || cursor == 0
    || cursor == |text|
    || !IsNameChar(text[cursor - 1])
    || EndsValue(text[cursor])
  }

  /** The backward scan over the whole text stops where a scan of the unread part stops. */
  lemma NameScanNeverCrossesCursor(text: string, cursor: nat, e: nat)
    requires cursor <= e < |text|
    requires text[e] == '='
    requires IsBarrier(text, cursor)
    ensures NameAtEndOf(text[..e]) == NameAtEndOf(text[cursor..e])
  {
    var whole, unread := text[..e], text[cursor..e];
    var w, u := NameStart(whole), NameStart(unread);
    assert forall i | 0 <= i < |unread| :: unread[i] == whole[cursor + i];
    assert w == cursor + u;
    assert whole[w..] == unread[u..];
  }

  /** One turn of the loop that copies a parameter it has no reason to hide. */
  lemma ReadsPlain(rules: Rules, text: string, cursor: nat, eq: nat)
    requires cursor <= eq < |text| && '=' !in text[cursor..eq] && text[eq] == '='
    requires !rules.IsSecret(NameAtEndOf(text[cursor..eq]))
    ensures Redacted(rules, text[cursor..]) == text[cursor..eq + 1] + Redacted(rules, text[eq + 1..])
  {
    var p := Plain(text[cursor..eq], text[eq + 1..]);
    assert text[cursor..eq] + "=" == text[cursor..eq + 1];
    assert p.Text() == text[cursor..];
    NextIs(rules, p);
  }

  /** One turn of the loop that hides a value. */
  lemma ReadsSecret(rules: Rules, text: string, cursor: nat, eq: nat, valueEnd: nat)
    requires cursor <= eq < valueEnd <= |text| && '=' !in text[cursor..eq] && text[eq] == '='
    requires IsValue(text[eq + 1..valueEnd])
    requires valueEnd < |text| ==> EndsValue(text[valueEnd])
    requires rules.IsSecret(NameAtEndOf(text[cursor..eq]))
    ensures Redacted(rules, text[cursor..]) ==
            text[cursor..eq + 1] + rules.Mask(text[eq + 1..valueEnd]) + Redacted(rules, text[valueEnd..])
  {
    var p := Secret(text[cursor..eq], text[eq + 1..valueEnd], text[valueEnd..]);
    assert text[cursor..eq] + "=" == text[cursor..eq + 1];
    assert p.Text() == text[cursor..];
    NextIs(rules, p);
  }

  lemma ReadsTail(rules: Rules, s: string)
    requires '=' !in s
    ensures Redacted(rules, s) == s
  {
    NextIs(rules, Tail(s));
  }

  method FindEq(text: string, from: nat) returns (k: nat)
    requires from <= |text|
    ensures from <= k <= |text| && '=' !in text[from..k]
    ensures if k < |text| then text[k] == '=' else '=' !in text[from..]
  {
    k := from;
    while k < |text| && text[k] != '='
      invariant from <= k <= |text| && '=' !in text[from..k]
    {
      k := k + 1;
    }
  }

  method FindValueEnd(text: string, from: nat) returns (k: nat)
    requires from <= |text|
    ensures from <= k <= |text| && IsValue(text[from..k])
    ensures k < |text| ==> EndsValue(text[k])
  {
    k := from;
    while k < |text| && !EndsValue(text[k])
      invariant from <= k <= |text|
      invariant forall i | from <= i < k :: !EndsValue(text[i])
    {
      k := k + 1;
    }
  }

  /** Walks back over the whole text, cursor or no cursor. */
  method FindName(text: string, e: nat) returns (name: string)
    requires e <= |text|
    ensures name == NameAtEndOf(text[..e])
  {
    var start := e;
    while start > 0 && IsNameChar(text[start - 1])
      invariant 0 <= start <= e
      invariant forall i | start <= i < e :: IsNameChar(text[i])
    {
      start := start - 1;
    }
    name := text[start..e];
    assert NameStart(text[..e]) == start by {
      assert forall i | 0 <= i < e :: text[..e][i] == text[i];
    }
    assert name == text[..e][start..];
  }

  lemma Appended(out: string, piece: string, rest: string)
    ensures out + piece + rest == out + (piece + rest)
  {
  }

  /** The parameter at the cursor: what is copied out for it, and where the cursor goes. */
  method TakeParameter(rules: Rules, text: string, cursor: nat, eq: nat) returns (piece: string, next: nat)
    requires cursor <= eq < |text| && IsBarrier(text, cursor)
    requires '=' !in text[cursor..eq] && text[eq] == '='
    ensures eq < next <= |text| && IsBarrier(text, next)
    ensures Redacted(rules, text[cursor..]) == piece + Redacted(rules, text[next..])
  {
    var name := FindName(text, eq);
    NameScanNeverCrossesCursor(text, cursor, eq);
    piece, next := text[cursor..eq + 1], eq + 1;
    if rules.IsSecret(name) {
      var valueEnd := FindValueEnd(text, next);
      ReadsSecret(rules, text, cursor, eq, valueEnd);
      // Nothing stands in for a value of no characters.
      piece := piece + rules.Mask(text[next..valueEnd]);
      next := valueEnd;
    } else {
      ReadsPlain(rules, text, cursor, eq);
    }
  }

  method RedactWith(rules: Rules, text: string) returns (out: string)
    ensures out == Redacted(rules, text)
  {
    out := "";
    var cursor := 0;
    assert text[0..] == text;
    while cursor < |text|
      invariant 0 <= cursor <= |text|
      invariant IsBarrier(text, cursor)
      invariant out + Redacted(rules, text[cursor..]) == Redacted(rules, text)
    {
      var eq := FindEq(text, cursor);
      if eq == |text| {
        ReadsTail(rules, text[cursor..]);
        return out + text[cursor..];
      }
      var piece, next := TakeParameter(rules, text, cursor, eq);
      Appended(out, piece, Redacted(rules, text[next..]));
      out, cursor := out + piece, next;
    }
    ReadsTail(rules, "");
  }

  /**
    `a` and `b` agree on everything but the values of secret parameters, and
    each such value is empty in both or in neither.
   */
  ghost predicate SameButSecrets(rules: Rules, a: string, b: string)
    decreases |a|
  {
    match (Next(rules, a), Next(rules, b))
    case (Tail(s), Tail(t)) => s == t
    case (Plain(ha, ra), Plain(hb, rb)) => ha == hb && SameButSecrets(rules, ra, rb)
    case (Secret(ha, va, ra), Secret(hb, vb, rb)) =>
      ha == hb && (va == "" <==> vb == "") && SameButSecrets(rules, ra, rb)
    case _ => false
  }

  lemma RedactedFirst(rules: Rules, s: string)
    ensures s == "" <==> Redacted(rules, s) == ""
    ensures s != "" ==> Redacted(rules, s)[0] == s[0]
  {
    var p := Next(rules, s);
    assert s == p.Text();
    if !p.Tail? && p.head != "" {
      assert p.Text()[0] == p.head[0];
    }
  }

  /** The redacted text reads like the text it came from, with its secrets masked. */
  lemma NextOfRedacted(rules: Rules, s: string)
    requires rules.Valid()
    ensures Next(rules, Redacted(rules, s)) ==
            match Next(rules, s)
            case Tail(text) => Tail(text)
            case Plain(head, rest) => Plain(head, Redacted(rules, rest))
            case Secret(head, value, rest) => Secret(head, rules.Mask(value), Redacted(rules, rest))
  {
    match Next(rules, s)
    case Tail(text) => NextIs(rules, Tail(text));
    case Plain(head, rest) => NextIs(rules, Plain(head, Redacted(rules, rest)));
    case Secret(head, value, rest) =>
      RedactedFirst(rules, rest);
      NextIs(rules, Secret(head, rules.Mask(value), Redacted(rules, rest)));
  }

  /** Nothing but secret values is changed, and which of them were empty is kept. */
  lemma {:induction false} OnlySecretsChange(rules: Rules, s: string)
    requires rules.Valid()
    ensures SameButSecrets(rules, s, Redacted(rules, s))
    decreases |s|
  {
    NextOfRedacted(rules, s);
    var p := Next(rules, s);
    if !p.Tail? {
      OnlySecretsChange(rules, p.rest);
    }
  }

  /**
    Noninterference, exactly: what a reader of the redacted text can tell apart
    is what differs outside the secret values, and no more.
   */
  lemma {:induction false} RedactedTellsApart(rules: Rules, a: string, b: string)
    requires rules.Valid()
    ensures Redacted(rules, a) == Redacted(rules, b) <==> SameButSecrets(rules, a, b)
    decreases |a|
  {
    NextOfRedacted(rules, a);
    NextOfRedacted(rules, b);
    var p, q := Next(rules, a), Next(rules, b);
    if !p.Tail? && !q.Tail? {
      RedactedTellsApart(rules, p.rest, q.rest);
    }
  }

  lemma RedactingTwiceIsRedactingOnce(rules: Rules, s: string)
    requires rules.Valid()
    ensures Redacted(rules, Redacted(rules, s)) == Redacted(rules, s)
  {
    OnlySecretsChange(rules, s);
    RedactedTellsApart(rules, s, Redacted(rules, s));
  }

  lemma SecretNamesAreIdentifiers(rules: Rules, name: string)
    requires rules.Valid() && rules.IsSecret(name)
    ensures forall i | 0 <= i < |name| :: IsNameChar(name[i])
    ensures IsValue(name) && '=' !in name
  {
    var k :| 0 <= k < |rules.names| && EqIgnoreAsciiCase(rules.names[k], name);
    forall i | 0 <= i < |name| ensures IsNameChar(name[i]) {
      assert LowerAscii(rules.names[k][i]) == LowerAscii(name[i]);
      assert IsLowerNameChar(rules.names[k][i]);
    }
  }

  /** `name` starts where `pre` ends: no identifier runs on into it. */
  ghost predicate StartsName(pre: string) {
    pre != "" ==> !IsNameChar(pre[|pre| - 1])
  }

  lemma WholeName(pre: string, name: string)
    requires StartsName(pre)
    requires forall i | 0 <= i < |name| :: IsNameChar(name[i])
    ensures NameAtEndOf(pre + name) == name
  {
    var s := pre + name;
    var k := NameStart(s);
    assert forall i | 0 <= i < |pre| :: s[i] == pre[i];
    assert forall i | |pre| <= i < |s| :: s[i] == name[i - |pre|];
    assert k == |pre|;
    assert s[|pre|..] == name;
  }

  /** The redaction of a text holding `name=value`, written without the value. */
  ghost function WithoutValue(rules: Rules, pre: string, name: string, post: string): string
    decreases |pre|
  {
    match Next(rules, pre)
    case Tail(_) => pre + name + "=" + rules.placeholder + Redacted(rules, post)
    case Plain(head, rest) => head + "=" + WithoutValue(rules, rest, name, post)
    case Secret(head, value, rest) =>
      if rest == "" then head + "=" + rules.placeholder + Redacted(rules, post)
      else head + "=" + rules.Mask(value) + WithoutValue(rules, rest, name, post)
  }

  /**
    Whatever stands in front of it, a secret's value is gone: either the scan
    reaches the parameter, or an earlier secret's value swallows it whole.
   */
  lemma {:induction false} ValueIsGone(rules: Rules, pre: string, name: string, value: string, post: string)
    requires rules.Valid() && rules.IsSecret(name) && StartsName(pre)
    requires IsValue(value) && value != ""
    requires post != "" ==> EndsValue(post[0])
    ensures Redacted(rules, pre + (name + "=" + value + post)) == WithoutValue(rules, pre, name, post)
    decreases |pre|
  {
    var param := name + "=" + value + post;
    match Next(rules, pre)
    case Tail(_) =>
      ReachedByTheScan(rules, pre, name, value, post);
    case Plain(head, rest) =>
      MoreAfter(rules, Plain(head, rest), Plain(head, rest + param), param);
      SameLast(head + "=", rest);
      ValueIsGone(rules, rest, name, value, post);
    case Secret(head, v, rest) =>
      if rest == "" {
        SwallowedWhole(rules, head, v, name, value, post);
      } else {
        MoreAfter(rules, Secret(head, v, rest), Secret(head, v, rest + param), param);
        SameLast(head + "=" + v, rest);
        ValueIsGone(rules, rest, name, value, post);
      }
  }

  lemma SameLast(a: string, b: string)
    requires StartsName(a + b)
    ensures StartsName(b)
  {
    assert b != "" ==> (a + b)[|a + b| - 1] == b[|b| - 1];
  }

  lemma MoreAfter(rules: Rules, p: Piece, longer: Piece, more: string)
    requires p.Valid(rules) && !p.Tail? && (p.Secret? ==> p.rest != "")
    requires longer == p.(rest := p.rest + more)
    ensures Next(rules, p.Text() + more) == longer
  {
    Appended(if p.Plain? then p.head + "=" else p.head + "=" + p.value, p.rest, more);
    NextIs(rules, longer);
  }

  lemma ReachedByTheScan(rules: Rules, pre: string, name: string, value: string, post: string)
    requires rules.Valid() && rules.IsSecret(name) && StartsName(pre) && '=' !in pre
    requires IsValue(value) && value != ""
    requires post != "" ==> EndsValue(post[0])
    ensures Next(rules, pre + (name + "=" + value + post)) == Secret(pre + name, value, post)
  {
    SecretNamesAreIdentifiers(rules, name);
    WholeName(pre, name);
    Regrouped(pre, name, value, post);
    NextIs(rules, Secret(pre + name, value, post));
  }

  lemma Regrouped(pre: string, name: string, value: string, post: string)
    ensures pre + (name + "=" + value + post) == pre + name + "=" + value + post
  {
  }

  lemma SwallowedWhole(rules: Rules, head: string, v: string, name: string, value: string, post: string)
    requires rules.Valid() && rules.IsSecret(name)
    requires Secret(head, v, "").Valid(rules)
    requires IsValue(value)
    requires post != "" ==> EndsValue(post[0])
    ensures Next(rules, Secret(head, v, "").Text() + (name + "=" + value + post)) ==
            Secret(head, v + name + "=" + value, post)
  {
    SecretNamesAreIdentifiers(rules, name);
    JoinedValues(v, name);
    JoinedValues(v + name, "=");
    JoinedValues(v + name + "=", value);
    SwallowedText(head, v, name, value, post);
    NextIs(rules, Secret(head, v + name + "=" + value, post));
  }

  lemma JoinedValues(a: string, b: string)
    requires IsValue(a) && IsValue(b)
    ensures IsValue(a + b)
  {
  }

  lemma SwallowedText(head: string, v: string, name: string, value: string, post: string)
    ensures Secret(head, v, "").Text() + (name + "=" + value + post) ==
            Secret(head, v + name + "=" + value, post).Text()
  {
    var h := head + "=";
    assert h + v + "" == h + v;
    Regrouped(h + v, name, value, post);
    assert h + v + name + "=" + value == h + (v + name + "=" + value);
  }

  /**
    A secret cannot be read back: two texts that differ only in the value of one
    secret parameter redact to the same string, wherever the parameter stands.
   */
  lemma SecretNeverSurvives(rules: Rules, pre: string, name: string, v1: string, v2: string, post: string)
    requires rules.Valid() && rules.IsSecret(name) && StartsName(pre)
    requires IsValue(v1) && v1 != "" && IsValue(v2) && v2 != ""
    requires post != "" ==> EndsValue(post[0])
    ensures Redacted(rules, pre + (name + "=" + v1 + post)) == Redacted(rules, pre + (name + "=" + v2 + post))
  {
    ValueIsGone(rules, pre, name, v1, post);
    ValueIsGone(rules, pre, name, v2, post);
  }

  // ---------------------------------------------------------------------------
  // Which characters and names these are, spelled out
  // ---------------------------------------------------------------------------

  /** `given` is `name` character by character, each as it is or as the capital 32 below it. */
  ghost predicate IsSpelling(name: string, given: string) {
    && |given| == |name|
    && forall j | 0 <= j < |name| ::
         given[j] == name[j] || ('A' <= given[j] <= 'Z' && name[j] as int == given[j] as int + 32)
  }

  /** A parameter is secret in every spelling of a listed name, and in no other. */
  lemma SecretInAnySpelling(rules: Rules, given: string)
    requires rules.Valid()
    ensures rules.IsSecret(given) <==> exists i | 0 <= i < |rules.names| :: IsSpelling(rules.names[i], given)
  {
    forall i | 0 <= i < |rules.names|
      ensures EqIgnoreAsciiCase(rules.names[i], given) <==> IsSpelling(rules.names[i], given)
    {
      SpellingIgnoresCase(rules.names[i], given);
    }
  }

  lemma SpellingIgnoresCase(name: string, given: string)
    requires forall j | 0 <= j < |name| :: IsLowerNameChar(name[j])
    ensures EqIgnoreAsciiCase(name, given) <==> IsSpelling(name, given)
  {
    if |name| == |given| {
      forall j | 0 <= j < |name|
        ensures LowerAscii(name[j]) == LowerAscii(given[j]) <==>
                given[j] == name[j] || ('A' <= given[j] <= 'Z' && name[j] as int == given[j] as int + 32)
      {
        assert IsLowerNameChar(name[j]);
      }
    }
  }

  /** The ten characters that end a value, and those that a name is made of. */
  lemma CharactersAre(c: char)
    ensures EndsValue(c) <==> c in "&\"') ,;\n\r\t"
    ensures IsNameChar(c) <==> 'a' <= c <= 'z' || 'A' <= c <= 'Z' || c in "0123456789_-"
  {
    if '0' <= c <= '9' {
      assert "0123456789_-"[c as int - 48] == c;
    }
  }

  /** The first secret parameter of a text: its value is replaced, and the rest redacted after it. */
  lemma SecretIsReplaced(rules: Rules, pre: string, name: string, value: string, post: string)
    requires rules.Valid() && StartsName(pre) && '=' !in pre
    requires exists i | 0 <= i < |rules.names| :: IsSpelling(rules.names[i], name)
    requires value != "" && forall i | 0 <= i < |value| :: value[i] !in "&\"') ,;\n\r\t"
    requires post != "" ==> post[0] in "&\"') ,;\n\r\t"
    ensures Redacted(rules, pre + (name + "=" + value + post)) ==
            pre + name + "=" + rules.placeholder + Redacted(rules, post)
  {
    SecretInAnySpelling(rules, name);
    forall i | 0 <= i < |value| ensures !EndsValue(value[i]) {
      CharactersAre(value[i]);
    }
    if post != "" {
      CharactersAre(post[0]);
    }
    ReachedByTheScan(rules, pre, name, value, post);
  }

  /** Any other parameter is copied out as it is. */
  lemma OthersStay(rules: Rules, pre: string, post: string)
    requires rules.Valid() && '=' !in pre
    requires forall i | 0 <= i < |rules.names| :: !IsSpelling(rules.names[i], NameAtEndOf(pre))
    ensures Redacted(rules, pre + "=" + post) == pre + "=" + Redacted(rules, post)
  {
    SecretInAnySpelling(rules, NameAtEndOf(pre));
    NextIs(rules, Plain(pre, post));
  }
}

module Secrets {
  import opened Redact

  /** Parameters whose values must never reach a log, and what stands in for them. */
  const RULES := Rules(
    ["_sid", "sid", "passwd", "password", "otp_code", "otp", "synotoken", "x-syno-token"],
    "<redacted>")

  ghost predicate IsLower(name: string) {
    forall j | 0 <= j < |name| :: IsLowerNameChar(name[j])
  }

  lemma NamesAreLower()
    ensures IsLower("_sid") && IsLower("sid") && IsLower("passwd") && IsLower("password")
    ensures IsLower("otp_code") && IsLower("otp") && IsLower("synotoken") && IsLower("x-syno-token")
  {
  }

  lemma PlaceholderEndsNothing()
    ensures forall j | 0 <= j < |RULES.placeholder| :: !EndsValue(RULES.placeholder[j])
  {
  }

  lemma RulesAreValid()
    ensures RULES.Valid()
  {
    NamesAreLower();
    PlaceholderEndsNothing();
    forall i | 0 <= i < |RULES.names| ensures IsLower(RULES.names[i]) {
    }
  }

  /** The eight names, in any spelling, and no others. */
  lemma SecretNamesAre(given: string)
    ensures RULES.IsSecret(given) <==>
            || IsSpelling("_sid", given) || IsSpelling("sid", given)
            || IsSpelling("passwd", given) || IsSpelling("password", given)
            || IsSpelling("otp_code", given) || IsSpelling("otp", given)
            || IsSpelling("synotoken", given) || IsSpelling("x-syno-token", given)
  {
    RulesAreValid();
    SecretInAnySpelling(RULES, given);
    NamesAre(RULES.names, given);
  }

  lemma NamesAre(names: seq<string>, given: string)
    requires |names| == 8
    ensures (exists i | 0 <= i < 8 :: IsSpelling(names[i], given)) <==>
            || IsSpelling(names[0], given) || IsSpelling(names[1], given)
            || IsSpelling(names[2], given) || IsSpelling(names[3], given)
            || IsSpelling(names[4], given) || IsSpelling(names[5], given)
            || IsSpelling(names[6], given) || IsSpelling(names[7], given)
  {
  }

  /**
    What the redactor answers for the first parameter of a text, a password or a
    session in any spelling: the name, the visible placeholder, and what follows.
   */
  lemma RedactsTheFirstSecret(pre: string, name: string, value: string, post: string)
    requires StartsName(pre) && '=' !in pre
    requires IsSpelling("passwd", name) || IsSpelling("_sid", name) || IsSpelling("synotoken", name)
    requires value != "" && forall i | 0 <= i < |value| :: value[i] !in "&\"') ,;\n\r\t"
    ensures Redacted(RULES, pre + (name + "=" + value + ("&" + post))) ==
            pre + name + "=" + "<redacted>" + Redacted(RULES, "&" + post)
    ensures Redacted(RULES, pre + (name + "=" + value + "")) == pre + name + "=" + "<redacted>"
  {
    RulesAreValid();
    SecretNamesAre(name);
    SecretInAnySpelling(RULES, name);
    SecretIsReplaced(RULES, pre, name, value, "&" + post);
    SecretIsReplaced(RULES, pre, name, value, "");
    ReadsTail(RULES, "");
  }

  method RedactSecrets(text: string) returns (out: string)
    ensures out == Redacted(RULES, text)
    ensures out == Redacted(RULES, out)
  {
    RulesAreValid();
    out := RedactWith(RULES, text);
    RedactingTwiceIsRedactingOnce(RULES, text);
  }
}

/**
 * Text builders: the user-facing message for an issue, the prompt handed to
 * the upgrade tool, the package-id format, and the decimal rendering of a
 * number (`String(n)` in the source).
 */
module Utility {
  import opened Types

  // ---------------------------------------------------------------------
  // Small string vocabulary used by the contracts below.

  predicate StartsWith(s: string, prefix: string) {
    |prefix| <= |s| && s[..|prefix|] == prefix
  }

  predicate EndsWith(s: string, suffix: string) {
    |suffix| <= |s| && s[|s| - |suffix|..] == suffix
  }

  predicate OccursAt(s: string, t: string, i: nat) {
    i + |t| <= |s| && s[i..i + |t|] == t
  }

  predicate Contains(s: string, t: string) {
    exists i: nat :: i <= |s| && OccursAt(s, t, i)
  }

  lemma {:induction false} EndsWithAppend(x: string, y: string, t: string)
    requires EndsWith(y, t)
    ensures EndsWith(x + y, t)
  {
    assert (x + y)[|x + y| - |t|..] == y[|y| - |t|..];
  }

  /** Two suffixes of one string: the shorter is a suffix of the longer. */
  lemma {:induction false} EndsWithBoth(s: string, t1: string, t2: string)
    requires EndsWith(s, t1) && EndsWith(s, t2) && |t1| <= |t2|
    ensures EndsWith(t2, t1)
  {
    assert t2[|t2| - |t1|..] == s[|s| - |t1|..];
  }

  // ---------------------------------------------------------------------
  // Array.prototype.join

  /** The strings of `parts` separated by `sep`, as `parts.join(sep)`. */
  function Join(parts: seq<string>, sep: string): string
  {
    if |parts| == 0 then ""
    else if |parts| == 1 then parts[0]
    else parts[0] + sep + Join(parts[1..], sep)
  }

  // ---------------------------------------------------------------------
  // buildPackageId: the group id and the artifact id joined by ":" (its
  // definition file is not part of this model).

  function BuildPackageId(groupId: string, artifactId: string): string {
    groupId + ":" + artifactId
  }

  // ---------------------------------------------------------------------
  // buildMessage

  /** The displayed name: the display name when present (even if empty), else the package id. */
  function DisplayName(issue: Issue): string {
    match issue.packageDisplayName
    case Some(n) => n
    case None => issue.packageId
  }

  /** The last five characters of each message kind; no two are alike. */
  const EndOfLifeTail := "ance."
  const CveTail := "rity."
  const EngineTail := "ures."

  /**
   * Reads the reason back from a message by its closing characters; the
   * partner of BuildMessage, showing that messages for different reasons
   * never coincide.
   */
  function MessageReason(msg: string): Option<Reason> {
    if EndsWith(msg, EndOfLifeTail) then Some(EndOfLife)
    else if EndsWith(msg, CveTail) then Some(Cve)
    else if EndsWith(msg, EngineTail) then Some(EngineTooOld)
    else None
  }

  /** Where the pieces of a message `prefix + a + mid + b + tail` sit. */
  lemma {:induction false} MessageShape(prefix: string, a: string, mid: string, b: string, tail: string, t: string)
    requires EndsWith(tail, t)
    ensures Contains(prefix + a + mid + b + tail, a)
    ensures Contains(prefix + a + mid + b + tail, b)
    ensures EndsWith(prefix + a + mid + b + tail, t)
  {
    var msg := prefix + a + mid + b + tail;
    assert msg[|prefix|..|prefix| + |a|] == a;
    assert OccursAt(msg, a, |prefix|);
    assert msg[|prefix| + |a| + |mid|..|prefix| + |a| + |mid| + |b|] == b;
    assert OccursAt(msg, b, |prefix| + |a| + |mid|);
    EndsWithAppend(prefix + a + mid + b, tail, t);
  }

  /** A message ending in one kind's closing characters is read back as that kind. */
  lemma {:induction false} ReasonFromTail(msg: string, r: Reason)
    requires EndsWith(msg, match r case EndOfLife => EndOfLifeTail case Cve => CveTail case EngineTooOld => EngineTail)
    ensures MessageReason(msg) == Some(r)
  {
    var last := msg[|msg| - 5..];
    assert EndOfLifeTail[0] != CveTail[0] && CveTail[0] != EngineTail[0] && EndOfLifeTail[0] != EngineTail[0];
    assert r != EndOfLife ==> last != EndOfLifeTail;
    assert r == EngineTooOld ==> last != CveTail;
  }

  /** What follows the current version in each kind of message. */
  const EndOfLifeClosing := ") is in end-of-life. Consider upgrading using Java Upgrade Tool for better security and performance."
  const CveClosing := ") has CVE. Consider upgrading using Java Upgrade Tool for better security."
  const EngineClosing := ") is too old. Consider upgrading using Java Upgrade Tool for better performance and features."

  lemma EndOfLifeClosingTail()
    ensures EndsWith(EndOfLifeClosing, EndOfLifeTail)
  {
    assert EndOfLifeClosing[|EndOfLifeClosing| - 5..] == EndOfLifeTail;
  }

  lemma CveClosingTail()
    ensures EndsWith(CveClosing, CveTail)
  {
    assert CveClosing[|CveClosing| - 5..] == CveTail;
  }

  lemma EngineClosingTail()
    ensures EndsWith(EngineClosing, EngineTail)
  {
    assert EngineClosing[|EngineClosing| - 5..] == EngineTail;
  }

  function BuildMessage(issue: Issue): (msg: string)
    ensures MessageReason(msg) == Some(issue.reason)
    ensures issue.reason != EngineTooOld ==>
      Contains(msg, DisplayName(issue)) && Contains(msg, issue.currentVersion)
    ensures issue.reason == EngineTooOld ==> Contains(msg, issue.currentVersion)
  {
    var name := DisplayName(issue);
    var cv := issue.currentVersion;
    match issue.reason
    case EndOfLife =>
      var msg := "Your project dependency " + name + " (" + cv + EndOfLifeClosing;
      EndOfLifeClosingTail();
      MessageShape("Your project dependency ", name, " (", cv, EndOfLifeClosing, EndOfLifeTail);
      ReasonFromTail(msg, EndOfLife);
      msg
    case Cve =>
      var msg := "Your project dependency " + name + " (" + cv + CveClosing;
      CveClosingTail();
      MessageShape("Your project dependency ", name, " (", cv, CveClosing, CveTail);
      ReasonFromTail(msg, Cve);
      msg
    case EngineTooOld =>
      var msg := "Your project Java version" + "" + " (" + cv + EngineClosing;
      EngineClosingTail();
      MessageShape("Your project Java version", "", " (", cv, EngineClosing, EngineTail);
      ReasonFromTail(msg, EngineTooOld);
      msg
  }

  /** The message for an outdated engine does not depend on the package id or display name. */
  lemma EngineMessageIgnoresPackage(a: Issue, b: Issue)
    requires a.reason == EngineTooOld && b.reason == EngineTooOld
    requires a.currentVersion == b.currentVersion
    ensures BuildMessage(a) == BuildMessage(b)
  {
  }

  // ---------------------------------------------------------------------
  // buildFixPrompt

  /** The first element of the prompt array, chosen by the reason. */
  function PromptHead(issue: Issue): string {
    match issue.reason
    case EndOfLife => "Upgrade the package " + issue.packageId + " using Java Upgrade Tool."
    case Cve => "Upgrade the package " + issue.packageId + " to resolve CVE."
    case EngineTooOld => "Upgrade Java version."
  }

  /** The optional second element: present iff the suggested version is a non-empty string. */
  function TargetSuffix(suggestedVersion: string): seq<string> {
    if suggestedVersion != "" then ["The target version is " + suggestedVersion + "."] else []
  }

  function BuildFixPrompt(issue: Issue): (p: string)
    ensures StartsWith(p, PromptHead(issue))
    ensures issue.suggestedVersion == "" ==> p == PromptHead(issue)
    ensures issue.suggestedVersion != "" ==>
      p == PromptHead(issue) + " The target version is " + issue.suggestedVersion + "."
    ensures |p| > |PromptHead(issue)| <==> issue.suggestedVersion != ""
  {
    var parts := [PromptHead(issue)] + TargetSuffix(issue.suggestedVersion);
    if issue.suggestedVersion != "" then
      var target := "The target version is " + issue.suggestedVersion + ".";
      assert parts == [PromptHead(issue), target];
      assert Join(parts, " ") == PromptHead(issue) + " " + target;
      Join(parts, " ")
    else
      Join(parts, " ")
  }

  /** The engine prompt starts with "Upgrade Java version." and does not depend on the package id. */
  lemma EnginePromptIgnoresPackage(a: Issue, b: Issue)
    requires a.reason == EngineTooOld && b.reason == EngineTooOld
    requires a.suggestedVersion == b.suggestedVersion
    ensures BuildFixPrompt(a) == BuildFixPrompt(b)
    ensures StartsWith(BuildFixPrompt(a), "Upgrade Java version.")
  {
  }

  // ---------------------------------------------------------------------
  // String(n) for an integral number, and its inverse.

  function DigitChar(d: nat): char
    requires d < 10
  {
    ('0' as int + d) as char
  }

  predicate IsDigit(c: char) {
    '0' <= c <= '9'
  }

  function DigitValue(c: char): nat
    requires IsDigit(c)
  {
    c as int - '0' as int
  }

  function NatToString(n: nat): (s: string)
    ensures |s| > 0 && forall i :: 0 <= i < |s| ==> IsDigit(s[i])
    ensures n == 0 ==> s == "0"
    ensures n > 0 ==> s[0] != '0'
  {
    if n < 10 then [DigitChar(n)] else NatToString(n / 10) + [DigitChar(n % 10)]
  }

  /** Text of the shape ParseNumber reads: an optional minus sign, then at least one digit. */
  predicate NumberText(s: string) {
    && |s| > 0
    && (s[0] == '-' ==> |s| > 1 && forall i :: 1 <= i < |s| ==> IsDigit(s[i]))
    && (s[0] != '-' ==> forall i :: 0 <= i < |s| ==> IsDigit(s[i]))
  }

  /**
   * The form `String(n)` gives an integer: no leading zero except in "0"
   * itself, and no "-0".
   */
  predicate CanonicalNumberText(s: string) {
    && NumberText(s)
    && (s[0] == '-' ==> s[1] != '0')
    && (s[0] == '0' ==> s == "0")
  }

  /** `String(n)`: decimal digits, with a leading minus sign for a negative number. */
  function NumberToString(n: int): (s: string)
    ensures CanonicalNumberText(s)
  {
    if n < 0 then "-" + NatToString(-n) else NatToString(n)
  }

  function ParseNat(s: string): nat
    requires forall i :: 0 <= i < |s| ==> IsDigit(s[i])
  {
    if s == [] then 0 else ParseNat(s[..|s| - 1]) * 10 + DigitValue(s[|s| - 1])
  }

  function ParseNumber(s: string): int
    requires NumberText(s)
  {
    if s[0] == '-' then -(ParseNat(s[1..]) as int) else ParseNat(s)
  }

  lemma {:induction false} NatRoundTrip(n: nat)
    ensures ParseNat(NatToString(n)) == n
  {
    if n >= 10 {
      var s := NatToString(n);
      NatRoundTrip(n / 10);
      assert s[..|s| - 1] == NatToString(n / 10);
    }
  }

  function Pow10(k: nat): (p: nat)
    ensures p >= 1
  {
    if k == 0 then 1 else 10 * Pow10(k - 1)
  }

  lemma {:induction false} Pow10Monotone(i: nat, j: nat)
    requires i <= j
    ensures Pow10(i) <= Pow10(j)
    decreases j
  {
    if i < j {
      Pow10Monotone(i, j - 1);
    }
  }

  /** Decimal digits without a leading zero (except "0" itself). */
  predicate CanonicalDigits(s: string) {
    && |s| > 0
    && (forall i :: 0 <= i < |s| ==> IsDigit(s[i]))
    && (s[0] == '0' ==> s == "0")
  }

  /** A text of `k` digits reads below 10^k, and at least 10^(k-1) when it does not start with '0'. */
  lemma {:induction false} ParseNatBounds(s: string)
    requires |s| > 0 && forall i :: 0 <= i < |s| ==> IsDigit(s[i])
    ensures ParseNat(s) < Pow10(|s|)
    ensures s[0] != '0' ==> Pow10(|s| - 1) <= ParseNat(s)
  {
    var init := s[..|s| - 1];
    var d := DigitValue(s[|s| - 1]);
    if |s| == 1 {
      assert ParseNat(init) == 0;
    } else {
      ParseNatBounds(init);
      assert init[0] == s[0];
      assert ParseNat(s) == ParseNat(init) * 10 + d;
      assert ParseNat(init) + 1 <= Pow10(|init|);
      assert (ParseNat(init) + 1) * 10 <= Pow10(|init|) * 10;
    }
  }

  /** Two canonical digit texts with the same value are the same text. */
  lemma {:induction false} ParseNatInjective(s: string, t: string)
    requires CanonicalDigits(s) && CanonicalDigits(t) && ParseNat(s) == ParseNat(t)
    ensures s == t
    decreases |s|
  {
    ParseNatBounds(s);
    ParseNatBounds(t);
    if s == "0" || t == "0" {
      assert ParseNat("0") == 0;
      return;
    }
    if |s| < |t| {
      Pow10Monotone(|s|, |t| - 1);
    } else if |t| < |s| {
      Pow10Monotone(|t|, |s| - 1);
    }
    assert |s| == |t|;
    var si, ti := s[..|s| - 1], t[..|t| - 1];
    var ds, dt := DigitValue(s[|s| - 1]), DigitValue(t[|t| - 1]);
    assert ParseNat(si) * 10 + ds == ParseNat(ti) * 10 + dt;
    assert ds == dt && ParseNat(si) == ParseNat(ti);
    assert s[|s| - 1] == t[|t| - 1];
    if |s| > 1 {
      assert si[0] == s[0] && ti[0] == t[0];
      ParseNatInjective(si, ti);
    }
    assert s == si + [s[|s| - 1]] && t == ti + [t[|t| - 1]];
  }

  /** `String(n)` is the only canonical text that reads as `n`. */
  lemma CanonicalUnique(s: string, t: string)
    requires CanonicalNumberText(s) && CanonicalNumberText(t) && ParseNumber(s) == ParseNumber(t)
    ensures s == t
  {
    if s[0] == '-' {
      ParseNatBounds(s[1..]);
    }
    if t[0] == '-' {
      ParseNatBounds(t[1..]);
    }
    if s[0] == '-' && t[0] == '-' {
      ParseNatInjective(s[1..], t[1..]);
      assert s == [s[0]] + s[1..] && t == [t[0]] + t[1..];
    } else if s[0] != '-' && t[0] != '-' {
      ParseNatInjective(s, t);
    }
  }

  /** The decimal rendering is injective: the number is recovered from its text. */
  lemma NumberRoundTrip(n: int)
    ensures ParseNumber(NumberToString(n)) == n
  {
    var s := NumberToString(n);
    if n < 0 {
      assert s[1..] == NatToString(-n);
      NatRoundTrip(-n);
    } else {
      NatRoundTrip(n);
    }
  }
}

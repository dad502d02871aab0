/** Trimming and case as the three layers do it: JavaScript, Python with Pydantic, and SQL. */
module Text {

  predicate IsSpace(c: char) {
    c == ' ' || c == '\t' || c == '\n' || c == '\r' || c == '\U{000B}' || c == '\U{000C}'
  }

  /** Where the text starts: the first position from i on that is not a space. */
  function Start(s: string, i: nat): (r: nat)
    requires i <= |s|
    ensures i <= r <= |s| && forall k :: i <= k < r ==> IsSpace(s[k])
    ensures r < |s| ==> !IsSpace(s[r])
    decreases |s| - i
  {
    if i < |s| && IsSpace(s[i]) then Start(s, i + 1) else i
  }

  /** Where the text ends: one past the last position in [i, j) that is not a space. */
  function End(s: string, i: nat, j: nat): (r: nat)
    requires i <= j <= |s|
    ensures i <= r <= j && forall k :: r <= k < j ==> IsSpace(s[k])
    ensures i < r ==> !IsSpace(s[r - 1])
  {
    if i < j && IsSpace(s[j - 1]) then End(s, i, j - 1) else j
  }

  /** str.strip(), String.prototype.trim and str_strip_whitespace. */
  function Trim(s: string): (r: string)
    ensures r != "" ==> !IsSpace(r[0]) && !IsSpace(r[|r| - 1])
  {
    s[Start(s, 0)..End(s, Start(s, 0), |s|)]
  }

  lemma TrimKeeps(s: string)
    requires s == "" || (!IsSpace(s[0]) && !IsSpace(s[|s| - 1]))
    ensures Trim(s) == s
  {
  }

  function SqlStart(s: string, i: nat): (r: nat)
    requires i <= |s|
    ensures i <= r <= |s| && forall k :: i <= k < r ==> s[k] == ' '
    ensures r < |s| ==> s[r] != ' '
    decreases |s| - i
  {
    if i < |s| && s[i] == ' ' then SqlStart(s, i + 1) else i
  }

  function SqlEnd(s: string, i: nat, j: nat): (r: nat)
    requires i <= j <= |s|
    ensures i <= r <= j && forall k :: r <= k < j ==> s[k] == ' '
    ensures i < r ==> s[r - 1] != ' '
  {
    if i < j && s[j - 1] == ' ' then SqlEnd(s, i, j - 1) else j
  }

  /** SQL trim(): blanks only. */
  function SqlTrim(s: string): string { s[SqlStart(s, 0)..SqlEnd(s, SqlStart(s, 0), |s|)] }

  function UpperChar(c: char): char {
    if 'a' <= c <= 'z' then (c as int - 'a' as int + 'A' as int) as char else c
  }

  /** Upper case of ASCII letters. */
  function Upper(s: string): (r: string)
    ensures |r| == |s|
  {
    seq(|s|, i requires 0 <= i < |s| => UpperChar(s[i]))
  }

  /** A transaction code as stored on a message: upper-case letters and digits. */
  predicate IsCode(s: string) {
    s != "" && forall i :: 0 <= i < |s| ==> ('A' <= s[i] <= 'Z' || '0' <= s[i] <= '9')
  }

  type Code = s: string | IsCode(s) witness "A"

  /** `_normalise` of a typed reference (services/mpesa.py:491-495). */
  function Normalised(reference: string): string { Upper(Trim(reference)) }

  /** `_code_of` a stored reference (repositories/mpesa.py:25-27). */
  function CodeOf(reference: string): string { Upper(SqlTrim(reference)) }

  lemma SqlTrimKeeps(s: string)
    requires s == "" || (s[0] != ' ' && s[|s| - 1] != ' ')
    ensures SqlTrim(s) == s
  {
  }

  /** References are stored stripped, and there the two spellings of a code agree. */
  lemma StoredCodesAgree(raw: string)
    ensures CodeOf(Trim(raw)) == Normalised(Trim(raw)) == Normalised(raw)
  {
    TrimKeeps(Trim(raw));
    SqlTrimKeeps(Trim(raw));
  }

  /** Nothing but blanks stands around the text: no tab or line break at either end. */
  predicate OnlyBlanksAround(s: string) {
    var t := SqlTrim(s);
    t == "" || (!IsSpace(t[0]) && !IsSpace(t[|t| - 1]))
  }

  /** The two trims agree on exactly those strings, and otherwise the SQL one keeps more. */
  lemma TrimsAgreeIff(s: string)
    ensures SqlTrim(s) == Trim(s) <==> OnlyBlanksAround(s)
    ensures !OnlyBlanksAround(s) ==> |SqlTrim(s)| > |Trim(s)|
  {
    var i, j := SqlStart(s, 0), SqlEnd(s, SqlStart(s, 0), |s|);
    var a, b := Start(s, 0), End(s, Start(s, 0), |s|);
    assert i <= a;
    if i == j {
      assert forall k :: 0 <= k < |s| ==> s[k] == ' ';
    } else {
      assert SqlTrim(s)[0] == s[i] && SqlTrim(s)[j - i - 1] == s[j - 1];
      assert a < b ==> b <= j;
    }
  }

  /** The SQL and the Python spelling of a reference agree exactly when only blanks surround it. */
  lemma CodesAgreeIff(s: string)
    ensures CodeOf(s) == Normalised(s) <==> OnlyBlanksAround(s)
  {
    hide SqlTrim, Trim, OnlyBlanksAround;
    TrimsAgreeIff(s);
  }

  /** A tab in front of any code is enough to tell them apart. */
  lemma UnstrippedCodesDiffer(code: Code)
    ensures CodeOf(['\t'] + code) != Normalised(['\t'] + code)
  {
    var typed := ['\t'] + code;
    assert typed[|typed| - 1] == code[|code| - 1];
    SqlTrimKeeps(typed);
    CodesAgreeIff(typed);
  }

  /** A code typed in any mixture of cases. */
  predicate TypedAs(s: string, code: Code) {
    && |s| == |code|
    && forall i :: 0 <= i < |s| ==>
         s[i] == code[i] || ('A' <= code[i] <= 'Z' && s[i] as int == code[i] as int + ('a' as int - 'A' as int))
  }

  predicate AllSpaces(s: string) { forall i :: 0 <= i < |s| ==> IsSpace(s[i]) }

  lemma {:induction false} StartAfter(before: string, rest: string, i: nat)
    requires AllSpaces(before) && i <= |before| && rest != "" && !IsSpace(rest[0])
    ensures Start(before + rest, i) == |before|
    decreases |before| - i
  {
    assert (before + rest)[|before|] == rest[0];
    if i < |before| {
      assert (before + rest)[i] == before[i];
      StartAfter(before, rest, i + 1);
    }
  }

  lemma {:induction false} EndBefore(front: string, after: string, i: nat, j: nat)
    requires AllSpaces(after) && i < |front| && |front| <= j <= |front + after| && !IsSpace(front[|front| - 1])
    ensures End(front + after, i, j) == |front|
    decreases j
  {
    assert (front + after)[|front| - 1] == front[|front| - 1];
    if j > |front| {
      assert (front + after)[j - 1] == after[j - 1 - |front|];
      EndBefore(front, after, i, j - 1);
    }
  }

  lemma TrimFinds(before: string, s: string, after: string)
    requires AllSpaces(before) && AllSpaces(after) && s != "" && !IsSpace(s[0]) && !IsSpace(s[|s| - 1])
    ensures Trim(before + s + after) == s
  {
    hide Start, End;
    var typed := before + s + after;
    assert typed == before + (s + after) && (s + after)[0] == s[0];
    StartAfter(before, s + after, 0);
    assert (before + s)[|before + s| - 1] == s[|s| - 1];
    EndBefore(before + s, after, |before|, |typed|);
    assert typed[|before|..|before + s|] == s;
  }

  lemma UpperOfTyped(s: string, code: Code)
    requires TypedAs(s, code)
    ensures Upper(s) == code && s != "" && !IsSpace(s[0]) && !IsSpace(s[|s| - 1])
  {
    forall i | 0 <= i < |s| ensures Upper(s)[i] == code[i] {}
  }

  /** However a code is typed, in whichever case and with whatever white space around it, it is that code. */
  lemma TypingDoesNotMatter(before: string, s: string, after: string, code: Code)
    requires AllSpaces(before) && AllSpaces(after) && TypedAs(s, code)
    ensures Normalised(before + s + after) == code
  {
    hide Trim, Upper;
    UpperOfTyped(s, code);
    TrimFinds(before, s, after);
  }

  /** A stored code is its own spelling, so a different code is never mistaken for it. */
  lemma CodesStayApart(a: Code, b: Code)
    ensures CodeOf(a) == a && Normalised(a) == a
    ensures Normalised(a) == Normalised(b) <==> a == b
  {
    OwnSpelling(a);
    OwnSpelling(b);
  }

  lemma OwnSpelling(a: Code)
    ensures CodeOf(a) == a && Normalised(a) == a
  {
    hide Trim, SqlTrim, Upper;
    UpperOfTyped(a, a);
    SqlTrimKeeps(a);
    TrimKeeps(a);
  }
}

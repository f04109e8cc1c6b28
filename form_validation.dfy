/** The submit handler of initFormValidation: every required field is checked
    (no short-circuit), its `error` class set when its trimmed value is empty
    and cleared otherwise; the result picks the notification shown and whether
    the form is reset. */
module FormValidation {

  /** The characters String.prototype.trim strips: ECMAScript WhiteSpace (tab,
      vertical tab, form feed, space, no-break space, byte-order mark and the
      other Unicode space separators) and LineTerminator (LF, CR, U+2028,
      U+2029). */
  predicate IsTrimmable(c: char)
  {
    || c == '\t' || c == '\U{000B}' || c == '\U{000C}' || c == ' ' || c == '\U{00A0}'
    || c == '\U{FEFF}' || c == '\U{1680}' || ('\U{2000}' <= c <= '\U{200A}')
    || c == '\U{202F}' || c == '\U{205F}' || c == '\U{3000}'
    || c == '\n' || c == '\r' || c == '\U{2028}' || c == '\U{2029}'
  }

  /** A value made of trimmable characters only (the empty value included). */
  ghost predicate Blank(s: string)
  {
    forall i :: 0 <= i < |s| ==> IsTrimmable(s[i])
  }

  /** The value without its leading trimmable characters. */
  function TrimStart(s: string): (r: string)
    ensures |r| <= |s| && r == s[|s| - |r|..]
    ensures r == [] || !IsTrimmable(r[0])
    ensures forall i :: 0 <= i < |s| - |r| ==> IsTrimmable(s[i])
  {
    if s != [] && IsTrimmable(s[0]) then TrimStart(s[1..]) else s
  }

  /** The value without its trailing trimmable characters. */
  function TrimEnd(s: string): (r: string)
    ensures |r| <= |s| && r == s[..|r|]
    ensures r == [] || !IsTrimmable(r[|r| - 1])
    ensures forall i :: |r| <= i < |s| ==> IsTrimmable(s[i])
  {
    if s != [] && IsTrimmable(s[|s| - 1]) then TrimEnd(s[..|s| - 1]) else s
  }

  /** field.value.trim(): the value with exactly its leading and trailing
      trimmable characters removed — a contiguous part of the value, everything
      before and after it trimmable, neither end of it trimmable — and empty
      exactly when the whole value is blank. */
  function Trim(s: string): (r: string)
    ensures |r| <= |s|
    ensures exists k :: 0 <= k <= |s| - |r| && r == s[k..][..|r|]
                        && (forall i :: 0 <= i < k ==> IsTrimmable(s[i]))
                        && (forall i :: k + |r| <= i < |s| ==> IsTrimmable(s[i]))
    ensures r == [] || (!IsTrimmable(r[0]) && !IsTrimmable(r[|r| - 1]))
    ensures r == [] <==> Blank(s)
  {
    TrimIsSlice(s);
    TrimEnd(TrimStart(s))
  }

  /** The facts behind Trim's contract, from those of TrimStart and TrimEnd:
      the result starts where TrimStart stopped. */
  lemma TrimIsSlice(s: string)
    ensures var t := TrimStart(s); var r := TrimEnd(t); var k := |s| - |t|;
            && k + |r| <= |s| && r == s[k..][..|r|]
            && (forall i :: 0 <= i < k ==> IsTrimmable(s[i]))
            && (forall i :: k + |r| <= i < |s| ==> IsTrimmable(s[i]))
            && (r == [] || !IsTrimmable(r[0]))
            && (r == [] <==> Blank(s))
  {
    var t := TrimStart(s);
    var k := |s| - |t|;
    assert forall i :: k <= i < |s| ==> s[i] == t[i - k];
  }

  /** A required field fails the check, `!field.value.trim()`, exactly when
      its value is blank. */
  function IsMissing(value: string): (b: bool)
    ensures b <==> Blank(value)
  {
    Trim(value) == []
  }

  /** The two messages the handler shows. */
  const SuccessMessage: string := "表单提交成功！"
  const ErrorMessage: string := "请填写所有必填字段"

  /** What a submission leads to: the notification shown (its message and
      type) and whether form.reset() runs. */
  datatype Outcome = Outcome(message: string, noticeType: string, resetForm: bool)

  /** The submit handler over the values of the form's required fields, in
      document order. `errors[i]` is whether field i carries the `error` class
      afterwards; the previous classes play no part. */
  method Submit(values: array<string>) returns (errors: seq<bool>, isValid: bool, outcome: Outcome)
    ensures |errors| == values.Length
    ensures forall i :: 0 <= i < values.Length ==> (errors[i] <==> Blank(values[i]))
    ensures isValid <==> forall i :: 0 <= i < values.Length ==> !Blank(values[i])
    ensures isValid ==> outcome == Outcome(SuccessMessage, "success", true)
    ensures !isValid ==> outcome == Outcome(ErrorMessage, "error", false)
  {
    isValid := true;
    errors := [];
    for i := 0 to values.Length
      invariant |errors| == i
      invariant forall j :: 0 <= j < i ==> (errors[j] <==> Blank(values[j]))
      invariant isValid <==> forall j :: 0 <= j < i ==> !Blank(values[j])
    {
      if IsMissing(values[i]) {
        errors := errors + [true];
        isValid := false;
      } else {
        errors := errors + [false];
      }
    }
    if isValid {
      outcome := Outcome(SuccessMessage, "success", true);
    } else {
      outcome := Outcome(ErrorMessage, "error", false);
    }
  }
}

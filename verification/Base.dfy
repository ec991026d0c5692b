/** The optional value and the refusal every module shares. */
module Base {

  datatype Option<+T> = None | Some(value: T)

  /** A service call's answer: a value, or the HTTP status it was refused with. */
  datatype Result<+T> = Ok(value: T) | Err(status: int)

  /** The characters a JavaScript `trim` or `\s` takes for blank. */
  predicate IsBlank(c: char) {
    || '\t' <= c <= '\r' || c in " \U{a0}\U{1680}\U{2028}\U{2029}\U{202f}\U{205f}\U{3000}\U{feff}"
    || '\U{2000}' <= c <= '\U{200a}'
  }

  function TrimLeft(text: string): string { if text != "" && IsBlank(text[0]) then TrimLeft(text[1..]) else text }

  function TrimRight(text: string): string {
    if text != "" && IsBlank(text[|text| - 1]) then TrimRight(text[..|text| - 1]) else text
  }

  /** What is trimmed away is blank, and what is left begins with something else. */
  lemma {:induction false} TrimLeftIs(text: string)
    ensures var n := |text| - |TrimLeft(text)|;
      && 0 <= n && TrimLeft(text) == text[n..] && (forall i :: 0 <= i < n ==> IsBlank(text[i]))
      && (n < |text| ==> !IsBlank(text[n]))
  {
    if text == "" || !IsBlank(text[0]) {
    } else {
      TrimLeftIs(text[1..]);
    }
  }

  lemma {:induction false} TrimRightIs(text: string)
    ensures var n := |TrimRight(text)|;
      && n <= |text| && TrimRight(text) == text[..n] && (forall i :: n <= i < |text| ==> IsBlank(text[i]))
      && (n > 0 ==> !IsBlank(text[n - 1]))
  {
    if text == "" || !IsBlank(text[|text| - 1]) {
    } else {
      TrimRightIs(text[..|text| - 1]);
    }
  }

  function Trim(text: string): string { TrimRight(TrimLeft(text)) }
}

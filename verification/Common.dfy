/** Types and string functions shared by the other modules. */
module Common {
  datatype Option<+T> = None | Some(value: T)

  /** Token counts an upstream reports; all zero when none could be extracted. */
  datatype Tokens = Tokens(prompt: int, completion: int, total: int)

  /** How a forwarded request is logged. */
  datatype Status = Completed | Partial | Error

  function Max(a: real, b: real): real {
    if a >= b then a else b
  }

  /** Unicode white space. */
  predicate IsSpace(c: char) {
    || c == ' ' || ('\t' <= c <= '\r') || c == '\U{85}' || c == '\U{A0}' || c == '\U{1680}'
    || ('\U{2000}' <= c <= '\U{200A}') || c == '\U{2028}' || c == '\U{2029}' || c == '\U{202F}' || c == '\U{205F}'
    || c == '\U{3000}'
  }

  /** The white space of Unicode, by code. */
  lemma SpaceCodes(c: char)
    ensures var u := c as int;
            IsSpace(c) <==>
              9 <= u <= 13 || u == 32 || u == 133 || u == 160 || u == 5760 || 8192 <= u <= 8202 || u == 8232 ||
              u == 8233 || u == 8239 || u == 8287 || u == 12288
  {}

  function TrimLeft(s: string): string {
    if s != "" && IsSpace(s[0]) then TrimLeft(s[1..]) else s
  }

  function TrimRight(s: string): string {
    if s != "" && IsSpace(s[|s| - 1]) then TrimRight(s[..|s| - 1]) else s
  }

  function TrimSpace(s: string): string {
    TrimRight(TrimLeft(s))
  }
}

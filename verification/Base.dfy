/** Types and small facts shared by every part of the model. */
module Base {

  datatype Option<+T> = None | Some(value: T)

  /** A reading of the database clock, in microseconds (the resolution of a PostgreSQL timestamp). */
  type Instant = int

  type StepId = nat
  type WorkerId = string
  type TxId = nat

  /** A jsonb value. Only equality of values matters to the code modelled here. */
  datatype Json = JText(text: string) | JNumber(number: int) | JObject(fields: map<string, Json>)

  /** Milliseconds as an interval on the database clock. */
  function Ms(milliseconds: int): int {
    milliseconds * 1000
  }

  /** The characters that String.prototype.trim removes. */
  predicate IsSpace(c: char) {
    c in {' ', '\t', '\n', '\r', '\U{B}', '\U{C}', '\U{A0}', '\U{1680}', '\U{2028}', '\U{2029}',
          '\U{202F}', '\U{205F}', '\U{3000}', '\U{FEFF}'}
    || '\U{2000}' <= c <= '\U{200A}'
  }

  /** `s.trim().length === 0` */
  predicate IsBlank(s: string) {
    forall i :: 0 <= i < |s| ==> IsSpace(s[i])
  }

  /** By code point: tab to carriage return, space, the no-break spaces, the separators and the fixed-width spaces. */
  lemma BlankIff(s: string)
    ensures IsBlank(s) <==> forall i :: 0 <= i < |s| ==>
              var code := s[i] as int;
              || 9 <= code <= 13 || code in {32, 160, 0x1680, 0x2028, 0x2029, 0x202F, 0x205F, 0x3000, 0xFEFF}
              || 0x2000 <= code <= 0x200A
  {
  }

  function Min(a: int, b: int): int {
    if a <= b then a else b
  }

  function Max(a: int, b: int): int {
    if a >= b then a else b
  }
}

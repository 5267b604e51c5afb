/** Values and machine constants shared by the whole model. */
module Common {

  datatype Option<+T> = None | Some(value: T)

  type Byte = bv8
  type Bytes = seq<Byte>

  /** What a notification handler returns to IIS (REQUEST_NOTIFICATION_STATUS). */
  datatype Status = Continue | Pending | FinishRequest

  const DWORD_MODULUS: nat := 0x1_0000_0000
  const QWORD_MODULUS: nat := 0x1_0000_0000_0000_0000

  function Min(a: int, b: int): (m: int)
    ensures m <= a && m <= b && (m == a || m == b)
  {
    if a <= b then a else b
  }

  /** A 32-bit HRESULT seen as an unsigned word. */
  type HResult = h: int | 0 <= h < 0x1_0000_0000

  const S_OK: HResult := 0
  const ERROR_HANDLE_EOF: int := 38

  /** FAILED(hr): the severity bit is set. */
  predicate Failed(hr: HResult) {
    hr >= 0x8000_0000
  }

  /** HRESULT_CODE(hr) == ERROR_HANDLE_EOF: the low word, whatever the severity. */
  predicate IsEofCode(hr: HResult) {
    hr % 0x1_0000 == ERROR_HANDLE_EOF
  }

  /** The bytes of a list of pieces, in order. */
  function Flatten(pieces: seq<Bytes>): Bytes {
    if pieces == [] then [] else Flatten(pieces[..|pieces| - 1]) + pieces[|pieces| - 1]
  }

  lemma FlattenSnoc(pieces: seq<Bytes>, piece: Bytes)
    ensures Flatten(pieces + [piece]) == Flatten(pieces) + piece
  {
    assert (pieces + [piece])[..|pieces|] == pieces;
  }

  lemma {:induction false} FlattenConcat(a: seq<Bytes>, b: seq<Bytes>)
    ensures Flatten(a + b) == Flatten(a) + Flatten(b)
  {
    if b == [] {
      assert a + b == a;
    } else {
      var front := b[..|b| - 1];
      FlattenConcat(a, front);
      var whole := a + b;
      assert whole[..|whole| - 1] == a + front;
    }
  }
}

/** Values shared by every part of the model: bytes, decoded JSON values,
    optional and fallible results, and byte-buffer helpers. */
module Values {

  /** One byte of the capture buffer. */
  newtype byte = b: int | 0 <= b < 256

  const NewLine: byte := 10
  const CarriageReturn: byte := 13

  datatype Option<T> = None | Some(value: T)

  /** The outcome of a decoder that may fail with an error text. */
  datatype Result<T> = Ok(value: T) | Err(msg: string)

  /** A decoded JSON value. Arrays and nested objects are never inspected
      by the typed accessors, so they share one constructor. */
  datatype JVal = JStr(s: string) | JNum(n: int) | JBool(b: bool) | JNull | JComposite

  /** The key/value mapping of one decoded log line. */
  type Fields = map<string, JVal>

  /** Go converts bytes to a string without re-encoding: each byte becomes
      the character with the same code. */
  function ToText(bs: seq<byte>): string
  {
    seq(|bs|, i requires 0 <= i < |bs| => bs[i] as char)
  }

  /** The in-order concatenation of a sequence of byte chunks, built from the
      end so that appending one chunk appends its bytes. */
  function Flatten(chunks: seq<seq<byte>>): seq<byte>
  {
    if chunks == [] then [] else Flatten(chunks[..|chunks| - 1]) + chunks[|chunks| - 1]
  }

  /** Flatten also peels chunks off the front. */
  lemma {:induction false} FlattenCons(c: seq<byte>, rest: seq<seq<byte>>)
    ensures Flatten([c] + rest) == c + Flatten(rest)
    decreases |rest|
  {
    if rest == [] {
      assert [c] + rest == [c];
      assert Flatten([c]) == Flatten([]) + c;
    } else {
      var all := [c] + rest;
      assert all[..|all| - 1] == [c] + rest[..|rest| - 1];
      FlattenCons(c, rest[..|rest| - 1]);
    }
  }
}

/** String objects (robj), which keep some numbers as numbers. */
module Objects {
  import opened Bytes
  import Decimal

  /** A string object: a number, or octets. */
  datatype StringObject = Number(v: int) | Raw(s: bytes)

  function Text(o: StringObject): bytes {
    match o
    case Number(v) => Decimal.Print(v)
    case Raw(s) => s
  }

  function Texts(os: seq<StringObject>): (r: seq<bytes>)
    ensures |r| == |os|
  {
    seq(|os|, i requires 0 <= i < |os| => Text(os[i]))
  }
}

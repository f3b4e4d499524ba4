/** RESP3 frames and the bytes the server writes for them. */
module Frames {
  import opened Text
  import opened Decimal

  datatype Frame =
    | SimpleString(text: Bytes)
    | SimpleError(text: Bytes)
    | Integer(n: I64)
    | BulkString(data: Bytes)
    | Array(items: seq<Frame>)
    | Map(pairs: seq<(Frame, Frame)>)
    | Push(items: seq<Frame>)
    | Null

  /** A type byte, a one-line payload, CRLF. */
  function Line(tag: Byte, payload: Bytes): Bytes {
    [tag] + payload + CRLF
  }

  function Encode(f: Frame): Bytes {
    match f
    case SimpleString(t) => Line('+', t)
    case SimpleError(t) => Line('-', t)
    case Integer(n) => Line(':', PrintInt(n))
    case BulkString(d) => Line('$', PrintInt(|d|)) + d + CRLF
    case Array(items) => Line('*', PrintInt(|items|)) + EncodeItems(items)
    case Map(pairs) => Line('%', PrintInt(|pairs|)) + EncodePairs(pairs)
    case Push(items) => Line('>', PrintInt(|items|)) + EncodeItems(items)
    case Null => "_" + CRLF
  }

  function EncodeItems(items: seq<Frame>): Bytes {
    if items == [] then [] else Encode(items[0]) + EncodeItems(items[1..])
  }

  function EncodePairs(pairs: seq<(Frame, Frame)>): Bytes {
    if pairs == [] then [] else EncodePair(pairs[0]) + EncodePairs(pairs[1..])
  }

  function EncodePair(p: (Frame, Frame)): Bytes {
    Encode(p.0) + Encode(p.1)
  }

  /** Number of frames in the tree. */
  function Nodes(f: Frame): nat {
    match f
    case Array(items) => 1 + NodesOfItems(items)
    case Push(items) => 1 + NodesOfItems(items)
    case Map(pairs) => 1 + NodesOfPairs(pairs)
    case _ => 1
  }

  function NodesOfItems(items: seq<Frame>): nat {
    if items == [] then 0 else Nodes(items[0]) + NodesOfItems(items[1..])
  }

  function NodesOfPairs(pairs: seq<(Frame, Frame)>): nat {
    if pairs == [] then 0 else NodesOfPair(pairs[0]) + NodesOfPairs(pairs[1..])
  }

  function NodesOfPair(p: (Frame, Frame)): nat {
    Nodes(p.0) + Nodes(p.1)
  }

  /** Frames without parts. */
  predicate IsLeaf(f: Frame) {
    !f.Array? && !f.Push? && !f.Map?
  }
}

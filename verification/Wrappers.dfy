// The failure-carrying types the model uses for the source's exceptions and for `None`.
module Wrappers {
  datatype Option<+T> = None | Some(value: T)

  datatype Result<+T, +E> = Success(value: T) | Failure(error: E) {
    predicate IsFailure() {
      Failure?
    }

    function PropagateFailure<U>(): Result<U, E>
      requires Failure?
    {
      Failure(error)
    }

    function Extract(): T
      requires Success?
    {
      value
    }
  }

  // The exceptions raised by the modelled part of the name and wire codecs.
  datatype DnsError =
    | LabelTooLong | NameTooLong | EmptyLabel        // dns.name._validate_labels
    | BadEscape | EscapeTooBig                       // dns.name.from_text
    | NeedAbsoluteNameOrOrigin                       // dns.name.Name.to_wire
    | ShortRead | BadPointer | BadLabelType          // dns.wire.Parser, dns.name.from_wire_parser
    | WrongSection | TooBig | RdataTooLong           // dns.renderer, dns.rdataset
    | CountTooBig                                    // struct.error in write_header
    | ShortHeader | TrailingJunk                     // dns.message._WireReader
    | NotModelled                                    // OPT, TSIG and dynamic updates

  function Min(a: int, b: int): int {
    if a <= b then a else b
  }

  function Max(a: int, b: int): int {
    if a >= b then a else b
  }

  lemma SeqAssociative<T>(a: seq<T>, b: seq<T>, c: seq<T>)
    ensures (a + b) + c == a + (b + c)
  {
  }

  lemma WithoutOne<T>(b: seq<T>, j: nat)
    requires j < |b|
    ensures b == b[..j] + ([b[j]] + b[j + 1..]) && multiset(b[..j] + b[j + 1..]) == multiset(b) - multiset{b[j]}
  {
    assert b == b[..j] + ([b[j]] + b[j + 1..]);
  }

  /** Permutations stay such when the same element is taken out of both. */
  lemma TakeOut<T>(a: seq<T>, b: seq<T>, j: nat)
    requires multiset(a) == multiset(b) && a != [] && j < |b| && b[j] == a[0]
    ensures multiset(a[1..]) == multiset(b[..j] + b[j + 1..]) && b == b[..j] + ([b[j]] + b[j + 1..])
  {
    WithoutOne(b, j);
    assert a == [a[0]] + a[1..];
    assert multiset(a[1..]) == multiset(a) - multiset{a[0]};
  }
}

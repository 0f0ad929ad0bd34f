/** The byte streams under a session: a TCP stream whose bytes arrive in arbitrary pieces, the
    buffered connection on top of it, and the stream that replays read-ahead bytes to TLS. */
module Connections {
  import opened Basics

  // What a TLS handshake makes of the client's remaining TCP bytes: the application data, or failure.
  type Acceptor = Bytes -> Option<Bytes>

  // A connection as its reader sees it, with no trace of how the bytes are split up.
  datatype Link =
    | Plain(rest: Bytes, acceptor: Option<Acceptor>)
    | Secure(rest: Bytes)

  const BUFFER_CAPACITY: nat := 8192

  predicate NonEmpty(chunks: seq<Bytes>)
  {
    forall i :: 0 <= i < |chunks| ==> chunks[i] != []
  }

  // One read of a socket: at most capacity bytes of the piece that arrived first; [] at end of stream.
  function Receive(chunks: seq<Bytes>, capacity: nat): (r: (Bytes, seq<Bytes>))
    requires NonEmpty(chunks)
    ensures NonEmpty(r.1) && r.0 + Concat(r.1) == Concat(chunks) && |r.0| <= capacity
    ensures r.0 == [] ==> capacity == 0 || Concat(chunks) == []
  {
    if chunks == [] then ([], [])
    else if |chunks[0]| <= capacity then (chunks[0], chunks[1..])
    else
      assert chunks[0][..capacity] + chunks[0][capacity..] == chunks[0];
      assert chunks[0 := chunks[0][capacity..]][1..] == chunks[1..];
      (chunks[0][..capacity], chunks[0 := chunks[0][capacity..]])
  }

  // A way for application data to arrive through TLS: any division into pieces.
  ghost predicate Faithful(arrival: Bytes -> seq<Bytes>)
  {
    forall data :: NonEmpty(arrival(data)) && Concat(arrival(data)) == data
  }

  class PrefixedTcpStream {
    var prefix: Bytes
    var inner: seq<Bytes>

    ghost predicate Valid()
      reads this
    {
      NonEmpty(inner)
    }

    // The bytes this stream has yet to yield.
    function Pending(): Bytes
      reads this
    {
      prefix + Concat(inner)
    }

    constructor FromExisting(buffer: Bytes, stream: seq<Bytes>)
      requires NonEmpty(stream)
      ensures Valid() && Pending() == buffer + Concat(stream)
    {
      prefix, inner := buffer, stream;
    }

    // Never loses, repeats or reorders a byte, and signals end of stream only when there is none left.
    method PollRead(capacity: nat) returns (data: Bytes)
      requires Valid()
      modifies this
      ensures Valid() && data + Pending() == old(Pending()) && |data| <= capacity
      ensures data == [] ==> capacity == 0 || Pending() == []
    {
      if prefix != [] {
        var n := if |prefix| <= capacity then |prefix| else capacity;
        data, prefix := prefix[..n], prefix[n..];
        assert data + prefix == old(prefix);
        return;
      }
      var r := Receive(inner, capacity);
      data, inner := r.0, r.1;
    }

    // Whatever buffer sizes the TLS layer reads with, it sees a prefix of the client's bytes.
    method PollAll(capacities: seq<nat>) returns (data: Bytes)
      requires Valid()
      modifies this
      ensures Valid() && data + Pending() == old(Pending())
    {
      data := [];
      for i := 0 to |capacities|
        invariant Valid() && data + Pending() == old(Pending())
      {
        var piece := PollRead(capacities[i]);
        data := data + piece;
      }
    }
  }

  class Connection {
    var buffer: Bytes
    var incoming: seq<Bytes>
    const acceptor: Option<Acceptor>
    const secure: bool
    const arrival: Bytes -> seq<Bytes>
    var output: string

    ghost predicate Valid()
      reads this
    {
      NonEmpty(incoming) && Faithful(arrival) && (secure ==> acceptor == None)
    }

    // The bytes not yet consumed.
    function Rest(): Bytes
      reads this
    {
      buffer + Concat(incoming)
    }

    function View(): Link
      reads this
    {
      if secure then Secure(Rest()) else Plain(Rest(), acceptor)
    }

    constructor NewPlain(stream: seq<Bytes>, tls: Option<Acceptor>, arrival: Bytes -> seq<Bytes>)
      requires NonEmpty(stream) && Faithful(arrival)
      ensures Valid() && View() == Plain(Concat(stream), tls) && output == ""
    {
      buffer, incoming := [], stream;
      acceptor, secure, this.arrival := tls, false, arrival;
      output := "";
    }

    constructor NewTls(data: Bytes, arrival: Bytes -> seq<Bytes>, output: string)
      requires Faithful(arrival)
      ensures Valid() && View() == Secure(data) && this.output == output
    {
      buffer, incoming := [], arrival(data);
      acceptor, secure, this.arrival := None, true, arrival;
      this.output := output;
    }

    method WriteAll(data: string)
      requires Valid()
      modifies this`output
      ensures Valid() && output == old(output) + data
    {
      output := output + data;
    }

    // The buffered bytes, after one read of the stream when there were none.
    method FillBuf() returns (available: Bytes)
      requires Valid()
      modifies this`buffer, this`incoming
      ensures Valid() && Rest() == old(Rest())
      ensures available == buffer && (available == [] ==> Rest() == [])
      ensures Rest() == available + Concat(incoming)
    {
      if buffer == [] {
        var r := Receive(incoming, BUFFER_CAPACITY);
        buffer, incoming := r.0, r.1;
      }
      available := buffer;
    }

    method Consume(n: nat)
      requires Valid() && n <= |buffer|
      modifies this`buffer
      ensures Valid() && old(buffer)[..n] + Rest() == old(Rest())
      ensures Rest() == old(buffer)[n..] + Concat(incoming)
    {
      buffer := buffer[n..];
      assert old(buffer) == old(buffer)[..n] + buffer;
    }

    function SupportsTls(): bool
      reads this
    {
      !secure && acceptor.Some?
    }

    // The TLS layer is handed every byte that was read ahead or is still to come; null is an error.
    method StartTls() returns (upgraded: Connection?)
      requires Valid()
      ensures (upgraded != null) <==> (!secure && acceptor.Some? && acceptor.value(Rest()).Some?)
      ensures upgraded != null ==>
                fresh(upgraded) && upgraded.Valid() && upgraded.output == output &&
                upgraded.View() == Secure(acceptor.value(Rest()).value)
    {
      if secure || acceptor.None? {
        return null;
      }
      var stream := new PrefixedTcpStream.FromExisting(buffer, incoming);
      var data := acceptor.value(stream.Pending());
      if data.None? {
        return null;
      }
      upgraded := new Connection.NewTls(data.value, arrival, output);
    }
  }
}

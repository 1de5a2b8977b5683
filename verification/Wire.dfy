/**
 How file images and framed payloads are laid out: a C `int` of four bytes, least significant
 first, in front of the bytes it counts.
 */
module Wire {
  import opened Octets

  datatype Option<T> = None | Some(value: T)

  const INT_LIMIT: int := 0x8000_0000

  function PutInt(n: nat): (b: Bytes)
    requires n < INT_LIMIT
    ensures |b| == 4
  {
    var n1 := n / 256;
    var n2 := n1 / 256;
    [(n % 256) as byte, (n1 % 256) as byte, (n2 % 256) as byte, (n2 / 256) as byte]
  }

  /** The `int` that starts at `at`; its top bit is the sign. */
  function GetInt(b: Bytes, at: nat): int
    requires at + 4 <= |b|
  {
    var n := b[at] as int + 256 * (b[at + 1] as int + 256 * (b[at + 2] as int + 256 * (b[at + 3] as int)));
    if n < INT_LIMIT then n else n - 2 * INT_LIMIT
  }

  lemma GetPut(n: nat, b: Bytes, at: nat)
    requires n < INT_LIMIT && at + 4 <= |b| && b[at..at + 4] == PutInt(n)
    ensures GetInt(b, at) == n
  {
    assert b[at] == b[at..at + 4][0] && b[at + 1] == b[at..at + 4][1];
    assert b[at + 2] == b[at..at + 4][2] && b[at + 3] == b[at..at + 4][3];
  }

  /** `server_readall`: the size of the content, then the content. */
  function Image(content: Bytes): Bytes
    requires |content| + 4 < INT_LIMIT
  {
    PutInt(|content|) + content
  }

  /** The payload length that `handle_message` passes on for an image. */
  function ImageLength(image: Bytes): int
    requires |image| >= 4
  {
    GetInt(image, 0) + 4
  }

  /** `connector_send_data`: a header that announces the size, then exactly that many bytes. */
  function Framed(data: Bytes, size: nat): Bytes
    requires size < INT_LIMIT && size <= |data|
  {
    PutInt(size) + data[..size]
  }

  /** `send_and_recv_data`: no payload if none is announced. */
  function Received(wire: Bytes): Option<Bytes>
    requires |wire| >= 4
  {
    var size := GetInt(wire, 0);
    if 0 < size && 4 + size <= |wire| then Some(wire[4..4 + size]) else None
  }

  /** The bytes `server_restore` writes: as many as the image says, from behind its size. */
  function Restored(image: Bytes): Option<Bytes>
    requires |image| >= 4
  {
    var size := GetInt(image, 0);
    if 0 <= size && 4 + size <= |image| then Some(image[4..4 + size]) else None
  }

  /** What the restoring server writes after asking for an image of `content`. */
  function Carried(content: Bytes): Option<Bytes>
    requires |content| + 4 < INT_LIMIT
  {
    ImageLengthIsExact(content);
    var image := Image(content);
    var arrived := Received(Framed(image, ImageLength(image)));
    if arrived.Some? && |arrived.value| >= 4 then Restored(arrived.value) else None
  }

  lemma ImageLengthIsExact(content: Bytes)
    requires |content| + 4 < INT_LIMIT
    ensures |Image(content)| >= 4 && ImageLength(Image(content)) == |Image(content)| == |content| + 4
  {
    GetPut(|content|, Image(content), 0);
  }

  lemma FrameRoundTrip(data: Bytes)
    requires 0 < |data| < INT_LIMIT
    ensures Received(Framed(data, |data|)) == Some(data)
  {
    var wire := Framed(data, |data|);
    assert wire[0..4] == PutInt(|data|);
    GetPut(|data|, wire, 0);
    assert wire[4..4 + |data|] == data;
  }

  /** Every content that fits, the empty one included, arrives as it was read. */
  lemma ImageRoundTrip(content: Bytes)
    requires |content| + 4 < INT_LIMIT
    ensures Carried(content) == Some(content)
  {
    var image := Image(content);
    ImageLengthIsExact(content);
    FrameRoundTrip(image);
    assert image[..|image|] == image;
    GetPut(|content|, image, 0);
  }
}

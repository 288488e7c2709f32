/** The RIFF/WAVE header put before 16-bit mono samples, and a reader of RIFF files. */
module Wav {
  import opened Wrappers

  const MAX_FIELD: int := 0xFFFFFFFF

  predicate AllowedRate(rate: nat) {
    rate in {8000, 16000, 22050, 24000, 32000, 44100, 48000}
  }

  /** Four-character chunk names in ASCII. */
  const RIFF: Bytes := [0x52, 0x49, 0x46, 0x46]
  const WAVE: Bytes := [0x57, 0x41, 0x56, 0x45]
  const FORMAT: Bytes := [0x66, 0x6D, 0x74, 0x20]
  const DATA: Bytes := [0x64, 0x61, 0x74, 0x61]

  // ----- Little-endian fields -----

  /** The low `width` bytes of `n`, lowest first; a larger number would be cut. */
  function Little(n: nat, width: nat): (b: Bytes)
    ensures |b| == width
  {
    if width == 0 then [] else [n % 256] + Little(n / 256, width - 1)
  }

  function Number(b: Bytes): nat {
    if b == [] then 0 else b[0] + 256 * Number(b[1..])
  }

  function Limit(width: nat): nat {
    if width == 0 then 1 else 256 * Limit(width - 1)
  }

  lemma {:induction false} FieldRoundTrip(n: nat, width: nat)
    requires n < Limit(width)
    ensures Number(Little(n, width)) == n
    decreases width
  {
    if width > 0 {
      FieldRoundTrip(n / 256, width - 1);
      assert Little(n, width)[1..] == Little(n / 256, width - 1);
    }
  }

  lemma {:induction false} Limits()
    ensures Limit(2) == 0x1_0000 && Limit(4) == MAX_FIELD + 1
  {
    assert Limit(1) == 0x100;
    assert Limit(3) == 0x100_0000;
  }

  // ----- The writer -----

  datatype WavError = UnsupportedRate | OddLength | TooLarge

  function Header(n: nat, rate: nat): (h: Bytes)
    ensures |h| == 44
  {
    var channels := 1;
    var bitDepth := 16;
    var blockAlign := channels * bitDepth / 8;
    var byteRate := rate * blockAlign;
    RIFF + Little(36 + n, 4) + WAVE
    + FORMAT + Little(16, 4) + Little(1, 2) + Little(channels, 2) + Little(rate, 4)
    + Little(byteRate, 4) + Little(blockAlign, 2) + Little(bitDepth, 2)
    + DATA + Little(n, 4)
  }

  /** create_pcm16_wav */
  function Create(pcm: Bytes, rate: nat): (r: Result<Bytes, WavError>) {
    if !AllowedRate(rate) then Err(UnsupportedRate)
    else if |pcm| % 2 != 0 then Err(OddLength)
    else if |pcm| > MAX_FIELD - 36 then Err(TooLarge)
    else Ok(Header(|pcm|, rate) + pcm)
  }

  // ----- A reader -----

  datatype Sound = Sound(channels: nat, rate: nat, byteRate: nat, blockAlign: nat, bits: nat, samples: Bytes)

  /** The body of the first chunk of that name; chunks are padded to even lengths. */
  function FindChunk(body: Bytes, name: Bytes): Option<Bytes>
    decreases |body|
  {
    if |body| < 8 then None
    else
      var size := Number(body[4..8]);
      if 8 + size > |body| then None
      else if body[..4] == name then Some(body[8..8 + size])
      else if 8 + size + size % 2 > |body| then None
      else FindChunk(body[8 + size + size % 2..], name)
  }

  /** An uncompressed sound from a RIFF file whose size field covers the whole file. */
  function Read(file: Bytes): Option<Sound> {
    if |file| < 12 || file[..4] != RIFF || Number(file[4..8]) != |file| - 8 || file[8..12] != WAVE then None
    else
      var format :- FindChunk(file[12..], FORMAT);
      var samples :- FindChunk(file[12..], DATA);
      if |format| < 16 || Number(format[..2]) != 1 then None
      else
        Some(Sound(Number(format[2..4]), Number(format[4..8]), Number(format[8..12]),
                   Number(format[12..14]), Number(format[14..16]), samples))
  }

  // ----- Reading back what was written -----

  function Chunk(name: Bytes, body: Bytes): (c: Bytes)
    requires |name| == 4
    ensures |c| == 8 + |body|
  {
    name + Little(|body|, 4) + body
  }

  lemma {:induction false} ChunkHere(name: Bytes, body: Bytes, rest: Bytes)
    requires |name| == 4 && |body| <= MAX_FIELD
    ensures FindChunk(Chunk(name, body) + rest, name) == Some(body)
  {
    var all := Chunk(name, body) + rest;
    Limits();
    FieldRoundTrip(|body|, 4);
    assert all[..4] == name && all[4..8] == Little(|body|, 4) && all[8..8 + |body|] == body;
  }

  lemma {:induction false} ChunkAfter(other: Bytes, body: Bytes, rest: Bytes, name: Bytes)
    requires |other| == |name| == 4 && other != name && |body| <= MAX_FIELD && |body| % 2 == 0
    ensures FindChunk(Chunk(other, body) + rest, name) == FindChunk(rest, name)
  {
    var all := Chunk(other, body) + rest;
    Limits();
    FieldRoundTrip(|body|, 4);
    assert all[..4] == other && all[4..8] == Little(|body|, 4) && all[8 + |body|..] == rest;
  }

  function Format(rate: nat): (f: Bytes)
    ensures |f| == 16
  {
    Little(1, 2) + Little(1, 2) + Little(rate, 4) + Little(2 * rate, 4) + Little(2, 2) + Little(16, 2)
  }

  lemma {:induction false} ReadFormat(rate: nat)
    requires 2 * rate <= MAX_FIELD
    ensures var f := Format(rate);
            Number(f[..2]) == 1 && Number(f[2..4]) == 1 && Number(f[4..8]) == rate
            && Number(f[8..12]) == 2 * rate && Number(f[12..14]) == 2 && Number(f[14..16]) == 16
  {
    var f := Format(rate);
    Limits();
    FieldRoundTrip(1, 2);
    FieldRoundTrip(rate, 4);
    FieldRoundTrip(2 * rate, 4);
    FieldRoundTrip(2, 2);
    FieldRoundTrip(16, 2);
    SixFields(Little(1, 2), Little(1, 2), Little(rate, 4), Little(2 * rate, 4), Little(2, 2), Little(16, 2));
  }

  lemma {:induction false} SixFields(a: Bytes, b: Bytes, c: Bytes, d: Bytes, e: Bytes, f: Bytes)
    requires |a| == |b| == |e| == |f| == 2 && |c| == |d| == 4
    ensures var all := a + b + c + d + e + f;
            all[..2] == a && all[2..4] == b && all[4..8] == c
            && all[8..12] == d && all[12..14] == e && all[14..16] == f
  {
    var all := a + b + c + d + e + f;
    assert all[..2] == a && all[2..4] == b;
    assert all[4..8] == c && all[8..12] == d;
    assert all[12..14] == e && all[14..16] == f;
  }

  lemma {:induction false} FileIsChunks(pcm: Bytes, rate: nat)
    ensures Header(|pcm|, rate) + pcm
         == RIFF + Little(36 + |pcm|, 4) + WAVE + (Chunk(FORMAT, Format(rate)) + (Chunk(DATA, pcm) + []))
  {
    assert rate * 2 == 2 * rate;
    Nest(RIFF + Little(36 + |pcm|, 4) + WAVE, FORMAT, Little(16, 4), Little(1, 2), Little(1, 2), Little(rate, 4),
         Little(2 * rate, 4), Little(2, 2), Little(16, 2), DATA, Little(|pcm|, 4), pcm);
  }

  /** The flat header is the file's two chunks. */
  lemma {:induction false} Nest(
    start: Bytes, name: Bytes, size: Bytes, a: Bytes, b: Bytes, c: Bytes, d: Bytes, e: Bytes, f: Bytes,
    data: Bytes, length: Bytes, pcm: Bytes)
    ensures start + name + size + a + b + c + d + e + f + data + length + pcm
         == start + ((name + size + (a + b + c + d + e + f)) + ((data + length + pcm) + []))
  {
  }

  /** The file is refused exactly when a check says so, and reads back as the samples and their rate. */
  lemma {:induction false} CreateRoundTrip(pcm: Bytes, rate: nat)
    ensures Create(pcm, rate).Ok? <==>
            && rate in {8000, 16000, 22050, 24000, 32000, 44100, 48000}
            && |pcm| % 2 == 0 && |pcm| + 36 < 0x1_0000_0000
    ensures Create(pcm, rate).Ok? ==> Read(Create(pcm, rate).value) == Some(Sound(1, rate, 2 * rate, 2, 16, pcm))
  {
    if Create(pcm, rate).Ok? {
      var file := Create(pcm, rate).value;
      var chunks := Chunk(FORMAT, Format(rate)) + (Chunk(DATA, pcm) + []);
      FileIsChunks(pcm, rate);
      Limits();
      FieldRoundTrip(36 + |pcm|, 4);
      assert file[..4] == RIFF && file[4..8] == Little(36 + |pcm|, 4);
      assert file[8..12] == WAVE && file[12..] == chunks;
      ChunkHere(FORMAT, Format(rate), Chunk(DATA, pcm) + []);
      ChunkAfter(FORMAT, Format(rate), Chunk(DATA, pcm) + [], DATA);
      ChunkHere(DATA, pcm, []);
      ReadFormat(rate);
    }
  }

  /** The bytes are those of an ASCII text. */
  predicate Spells(b: Bytes, text: string) {
    |b| == |text| && forall i :: 0 <= i < |b| ==> b[i] == text[i] as int
  }

  lemma {:induction false} HeaderParts(n: nat, rate: nat)
    ensures var h := Header(n, rate);
            && h[..4] == RIFF && h[8..12] == WAVE && h[12..16] == FORMAT && h[36..40] == DATA
            && h[16..20] == Little(16, 4) && h[20..22] == Little(1, 2)
  {
    var h := Header(n, rate);
    assert h[..4] == RIFF && h[8..12] == WAVE;
    assert h[12..16] == FORMAT && h[36..40] == DATA;
    assert h[16..20] == Little(16, 4) && h[20..22] == Little(1, 2);
  }

  /** The chunk names and the format's size and kind stand where the format has them. */
  lemma {:induction false} FileLayout(pcm: Bytes, rate: nat)
    requires Create(pcm, rate).Ok?
    ensures var file := Create(pcm, rate).value;
            && |file| >= 44
            && Spells(file[..4], "RIFF") && Spells(file[8..12], "WAVE")
            && Spells(file[12..16], "fmt ") && Spells(file[36..40], "data")
            && Number(file[16..20]) == 16 && Number(file[20..22]) == 1
  {
    var file := Create(pcm, rate).value;
    var h := Header(|pcm|, rate);
    HeaderParts(|pcm|, rate);
    assert file == h + pcm;
    assert file[..4] == h[..4] && file[8..12] == h[8..12] && file[12..16] == h[12..16] && file[36..40] == h[36..40];
    assert file[16..20] == h[16..20] && file[20..22] == h[20..22];
    Limits();
    FieldRoundTrip(16, 4);
    FieldRoundTrip(1, 2);
  }

  /** The two size fields hold the true sizes: nothing was cut to 32 bits. */
  lemma {:induction false} SizeFields(pcm: Bytes, rate: nat)
    requires Create(pcm, rate).Ok?
    ensures var file := Create(pcm, rate).value;
            |file| == 44 + |pcm| && Number(file[4..8]) == |file| - 8 && Number(file[40..44]) == |pcm|
            && file[44..] == pcm
  {
    var file := Create(pcm, rate).value;
    Limits();
    FieldRoundTrip(36 + |pcm|, 4);
    FieldRoundTrip(|pcm|, 4);
    assert file[4..8] == Little(36 + |pcm|, 4);
    assert file[40..44] == Little(|pcm|, 4);
  }
}

/** Zero-terminated names in UTF-8, as the tables of an image hold them. */
module Texts {
  import opened Wrappers
  import opened Bytes

  const MAX_NAME_LENGTH := 4096

  type Text = seq<byte>

  /** Where the first zero byte stands, among the first `limit` bytes from `at`. */
  function TextLength(image: seq<byte>, at: nat, limit: nat): Option<nat>
    decreases limit
  {
    if limit == 0 || at >= |image| then None
    else if image[at] == 0 then Some(0)
    else
      var rest :- TextLength(image, at + 1, limit - 1);
      Some(rest + 1)
  }

  predicate Continues(bytes: seq<byte>, at: nat) {
    at < |bytes| && 0x80 <= bytes[at] < 0xC0
  }

  /** How many bytes the character at the front takes in UTF-8, or zero if it is malformed. */
  function CharacterSize(bytes: seq<byte>): nat
    requires bytes != []
  {
    var first := bytes[0];
    if first < 0x80 then 1
    else if 0xC2 <= first < 0xE0 then (if Continues(bytes, 1) then 2 else 0)
    else if 0xE0 <= first < 0xF0 then
      (if Continues(bytes, 1) && Continues(bytes, 2) && (first == 0xE0 ==> bytes[1] >= 0xA0) && (first == 0xED ==> bytes[1] < 0xA0)
       then 3 else 0)
    else if 0xF0 <= first < 0xF5 then
      (if Continues(bytes, 1) && Continues(bytes, 2) && Continues(bytes, 3)
          && (first == 0xF0 ==> bytes[1] >= 0x90) && (first == 0xF4 ==> bytes[1] < 0x90)
       then 4 else 0)
    else 0
  }

  predicate Utf8(bytes: seq<byte>)
    decreases |bytes|
  {
    bytes == [] || (1 <= CharacterSize(bytes) <= |bytes| && Utf8(bytes[CharacterSize(bytes)..]))
  }

  function ReadText(image: seq<byte>, at: nat): Option<Text> {
    var length :- TextLength(image, at, MAX_NAME_LENGTH);
    if at + length <= |image| && length > 0 && Utf8(image[at..at + length]) then Some(image[at..at + length]) else None
  }

  predicate Ascii(text: Text) {
    text != [] && forall i :: 0 <= i < |text| ==> 0 < text[i] < 128
  }

  /** A text that can be read once it is written with a zero behind it. */
  predicate Proper(text: Text) {
    text != [] && |text| < 4096 && Utf8(text) && forall i :: 0 <= i < |text| ==> text[i] != 0
  }

  lemma {:induction false} AsciiIsUtf8(text: Text)
    requires forall i :: 0 <= i < |text| ==> text[i] < 128
    ensures Utf8(text)
  {
    if text != [] {
      assert text[0] < 128;
      AsciiIsUtf8(text[1..]);
    }
  }

  lemma {:induction false} TextEnds(image: seq<byte>, at: nat, text: Text, limit: nat)
    requires StartsAt(image, at, text + [0]) && |text| < limit && forall i :: 0 <= i < |text| ==> text[i] != 0
    ensures TextLength(image, at, limit) == Some(|text|)
    decreases |text|
  {
    var part := image[at..at + |text| + 1];
    assert image[at] == part[0];
    if text != [] {
      assert image[at + 1..at + 1 + |text[1..] + [0]|] == part[1..];
      assert part[1..] == text[1..] + [0];
      TextEnds(image, at + 1, text[1..], limit - 1);
    }
  }

  lemma AsciiIsProper(text: Text)
    requires Ascii(text) && |text| < MAX_NAME_LENGTH
    ensures Proper(text)
  {
    AsciiIsUtf8(text);
  }

  /** A proper text in front of a zero reads back, and only proper texts are read. */
  lemma TextRoundTrip(image: seq<byte>, at: nat, text: Text)
    requires Proper(text) && StartsAt(image, at, text + [0])
    ensures ReadText(image, at) == Some(text)
  {
    hide TextLength, Utf8;
    TextEnds(image, at, text, MAX_NAME_LENGTH);
    StartsWith(image, at, text, [0]);
  }

  lemma TextsReadAreProper(image: seq<byte>, at: nat)
    requires ReadText(image, at).Some?
    ensures Proper(ReadText(image, at).value)
  {
    hide Utf8;
    LengthIsShort(image, at, MAX_NAME_LENGTH);
  }

  lemma {:induction false} LengthIsShort(image: seq<byte>, at: nat, limit: nat)
    requires TextLength(image, at, limit).Some?
    ensures var length := TextLength(image, at, limit).value;
      length < limit && at + length < |image| && forall i :: at <= i < at + length ==> image[i] != 0
    decreases limit
  {
    if image[at] != 0 {
      LengthIsShort(image, at + 1, limit - 1);
    }
  }
}

/**
 * The image-payload check `isValidBase64Image` of src/lib/gemini.ts: a partial
 * check of the `data:` URI syntax of section 3 of RFC 2397 (a `data:image/`
 * media type, then a comma and an encoded body) with a bound on the decoded size.
 */
module ImageValidator {
  import opened Wrappers

  /** The media-type prefix every accepted payload starts with. */
  const ImagePrefix: string := "data:image/"

  /** 4 MiB: payloads whose estimated decoded size reaches this are refused. */
  const MaxImageBytes: nat := 4 * 1024 * 1024

  /** `s.startsWith(prefix)`: `s` agrees with `prefix` at every position of `prefix`. */
  predicate StartsWith(s: string, prefix: string)
    ensures StartsWith(s, prefix) <==> |prefix| <= |s| && forall k :: 0 <= k < |prefix| ==> s[k] == prefix[k]
  {
    |prefix| <= |s| && s[..|prefix|] == prefix
  }

  /**
   * JavaScript's `s.split(sep)` for a one-character separator: the pieces of `s`
   * between consecutive separators, always at least one (the empty string yields [""]).
   */
  function Split(s: string, sep: char): (parts: seq<string>)
    ensures |parts| >= 1
    ensures forall i :: 0 <= i < |parts| ==> sep !in parts[i]
  {
    if |s| == 0 then [""]
    else
      var rest := Split(s[1..], sep);
      if s[0] == sep then [""] + rest
      else [[s[0]] + rest[0]] + rest[1..]
  }

  /** `parts.join(sep)`: the inverse of Split. */
  function Join(parts: seq<string>, sep: char): (joined: string)
    requires |parts| >= 1
  {
    if |parts| == 1 then parts[0] else parts[0] + [sep] + Join(parts[1..], sep)
  }

  /** Splitting loses nothing: joining the pieces back gives the original string. */
  lemma {:induction false} JoinSplit(s: string, sep: char)
    ensures Join(Split(s, sep), sep) == s
  {
    if |s| > 0 {
      var rest := Split(s[1..], sep);
      JoinSplit(s[1..], sep);
      if s[0] != sep {
        var parts := Split(s, sep);
        if |rest| == 1 {
          assert Join(parts, sep) == [s[0]] + rest[0];
        } else {
          assert parts[1..] == rest[1..];
          assert Join(parts, sep) == ([s[0]] + rest[0]) + [sep] + Join(rest[1..], sep);
          assert Join(rest, sep) == rest[0] + [sep] + Join(rest[1..], sep);
        }
      }
    }
  }

  /**
   * The first piece of a split is the separator-free prefix of length `k`, and
   * when the separator at `k` exists the remaining pieces are those of what follows it.
   */
  lemma {:induction false} SplitFirst(s: string, sep: char, k: nat)
    requires k <= |s| && sep !in s[..k]
    requires k == |s| || s[k] == sep
    ensures Split(s, sep)[0] == s[..k]
    ensures k < |s| ==> Split(s, sep)[1..] == Split(s[k + 1..], sep)
  {
    if k > 0 {
      assert s[0] in s[..k];
      assert s[1..][..k - 1] == s[1..k];
      SplitFirst(s[1..], sep, k - 1);
      if k < |s| {
        assert s[1..][k..] == s[k + 1..];
      }
      assert [s[0]] + s[1..k] == s[..k];
    }
  }

  /** A string holds more than one piece exactly when it holds the separator. */
  lemma {:induction false} SplitCount(s: string, sep: char)
    ensures |Split(s, sep)| > 1 <==> sep in s
  {
    if |s| > 0 {
      SplitCount(s[1..], sep);
      assert s == [s[0]] + s[1..];
    }
  }

  /**
   * `imageData.split(",")[1]`: the piece after the first comma, up to the next
   * comma or the end, or `undefined` when there is no comma.
   */
  function Base64Body(imageData: string): (body: Option<string>)
    ensures body.Some? <==> ',' in imageData
    ensures body.Some? ==> ',' !in body.value
  {
    var parts := Split(imageData, ',');
    SplitCount(imageData, ',');
    if |parts| > 1 then Some(parts[1]) else None
  }

  /**
   * What `s.length` reports in JavaScript: UTF-16 code units, two for every
   * character beyond U+FFFF.
   */
  function Utf16Length(s: string): (units: nat)
    ensures |s| <= units <= 2 * |s|
  {
    if |s| == 0 then 0
    else (if s[0] as int >= 0x1_0000 then 2 else 1) + Utf16Length(s[1..])
  }

  /** For text in the Basic Multilingual Plane, as a base64 body is, JavaScript's length is the character count. */
  lemma {:induction false} Utf16LengthBmp(s: string)
    requires forall k :: 0 <= k < |s| ==> s[k] as int < 0x1_0000
    ensures Utf16Length(s) == |s|
  {
    if |s| > 0 {
      Utf16LengthBmp(s[1..]);
    }
  }

  /** Every character beyond U+FFFF, such as an emoji, counts twice. */
  lemma AstralCountsTwice(c: char)
    requires c as int >= 0x1_0000
    ensures Utf16Length([c]) == 2
  {
  }

  /**
   * `(base64.length * 3) / 4`, the decoded size the source estimates (exact in
   * JavaScript numbers at these sizes); below 4 MiB exactly when
   * `3 * length < 16 * 1024 * 1024`.
   */
  function EstimatedBytes(body: string): (bytes: real)
    ensures bytes >= 0.0
    ensures bytes < MaxImageBytes as real <==> 3 * Utf16Length(body) < 4 * MaxImageBytes
  {
    (Utf16Length(body) as real * 3.0) / 4.0
  }

  /**
   * isValidBase64Image: prefix present, body non-empty, estimated size below
   * 4 MiB. An accepted payload has a comma-free body of at most 5592405 UTF-16 units.
   */
  predicate IsValidBase64Image(imageData: string)
    ensures IsValidBase64Image(imageData) ==>
      StartsWith(imageData, ImagePrefix) && ',' in imageData &&
      0 < |Base64Body(imageData).value| <= Utf16Length(Base64Body(imageData).value) <= 5592405
  {
    StartsWith(imageData, ImagePrefix) &&
    match Base64Body(imageData)
    case None => false
    case Some(body) => body != "" && EstimatedBytes(body) < MaxImageBytes as real
  }

  /** The size test allows at most 5592405 UTF-16 units of body. */
  lemma SizeBoundExact(body: string)
    ensures EstimatedBytes(body) < MaxImageBytes as real <==> Utf16Length(body) <= 5592405
  {
  }

  /** Without a comma there is no body, so nothing is accepted. */
  lemma NoCommaRejected(imageData: string)
    requires ',' !in imageData
    ensures Base64Body(imageData) == None
    ensures !IsValidBase64Image(imageData)
  {
  }

  /**
   * Exact characterisation: when the first comma is at `i` and the next comma (or
   * the end) at `j`, the payload is accepted exactly when it has the image prefix
   * and the segment between them is non-empty and has `3 * L < 16 * 1024 * 1024`
   * for its JavaScript length `L`.
   */
  lemma ValidIff(imageData: string, i: nat, j: nat)
    requires i < j <= |imageData|
    requires imageData[i] == ',' && ',' !in imageData[..i]
    requires ',' !in imageData[i + 1..j] && (j == |imageData| || imageData[j] == ',')
    ensures Base64Body(imageData) == Some(imageData[i + 1..j])
    ensures IsValidBase64Image(imageData) <==>
              StartsWith(imageData, ImagePrefix) && i + 1 < j &&
              3 * Utf16Length(imageData[i + 1..j]) < 4 * MaxImageBytes
  {
    SplitFirst(imageData, ',', i);
    var rest := imageData[i + 1..];
    assert rest[..j - i - 1] == imageData[i + 1..j];
    SplitFirst(rest, ',', j - i - 1);
  }
}

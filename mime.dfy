/**
 * Assembly of the encrypted message: the envelope (original non-content
 * headers followed by the OpenPGP/MIME headers), the plaintext handed to
 * encryption and the `multipart/encrypted` body of section 4 of RFC 3156.
 */
module Mime {
  import opened Wrappers
  import opened Text
  import opened Headers

  /** A header line `Name: value`. */
  function HeaderLine(name: string, value: string): (line: string)
    ensures |name| > 0 ==> |line| > 0 && line[0] == name[0]
  {
    name + ": " + value
  }

  const ENCRYPTED_CONTENT_TYPE: string :=
    HeaderLine("Content-Type", "multipart/encrypted; protocol=\"application/pgp-encrypted\";")
  const ENCRYPTED_DESCRIPTION: string := HeaderLine("Content-Description", "OpenPGP encrypted message")
  const SEVEN_BIT_ENCODING: string := HeaderLine("Content-Transfer-Encoding", "7bit")

  /** The folded continuation carrying the boundary parameter. */
  function BoundaryParameter(boundary: string): (line: string)
    ensures StartsWithWhitespace(line)
  {
    " boundary=\"" + boundary + "\""
  }

  /** The four headers appended to the envelope, each pushed as a logical
      header of its own. */
  function ProtectionHeaders(boundary: string): seq<seq<string>>
  {
    [[ENCRYPTED_CONTENT_TYPE], [BoundaryParameter(boundary)], [ENCRYPTED_DESCRIPTION], [SEVEN_BIT_ENCODING]]
  }

  /** The serialized envelope: the original non-content headers, then the
      protection headers. */
  function EnvelopeText(headers: seq<seq<string>>, boundary: string): string
  {
    SerializeHeaders(headers + ProtectionHeaders(boundary))
  }

  /** The envelope is the original non-content headers' lines, in order,
      followed by exactly the four protection lines, all separated by CRLF;
      with no non-content header it starts directly with the new
      Content-Type. */
  lemma EnvelopeLayout(headers: seq<seq<string>>, boundary: string)
    requires forall k :: 0 <= k < |headers| ==> |headers[k]| > 0
    ensures EnvelopeText(headers, boundary) ==
              (if |headers| == 0 then "" else SerializeHeaders(headers) + CRLF) +
              (ENCRYPTED_CONTENT_TYPE + CRLF + BoundaryParameter(boundary) + CRLF +
               ENCRYPTED_DESCRIPTION + CRLF + SEVEN_BIT_ENCODING)
  {
    var ct, bp, cd, te := ENCRYPTED_CONTENT_TYPE, BoundaryParameter(boundary), ENCRYPTED_DESCRIPTION, SEVEN_BIT_ENCODING;
    Flatten4(ct, bp, cd, te);
    SerializeWithTail(headers, ProtectionHeaders(boundary), [ct, bp, cd, te]);
    Join4(ct, bp, cd, te, CRLF);
  }

  /** A reader folding the envelope's lines finds the original non-content
      headers unchanged, none of them a Content-Type or
      Content-Transfer-Encoding header, followed by the new Content-Type with
      the boundary parameter folded into it, then the description and the
      transfer encoding. */
  lemma EnvelopeRefolds(header: string, boundary: string)
    ensures var env := Select(FoldLines(HeaderLines(header)), false);
            && (forall g :: g in env ==> !IsContentGroup(g))
            && FoldLines(Flatten(env + ProtectionHeaders(boundary))) ==
                 env + [[ENCRYPTED_CONTENT_TYPE, BoundaryParameter(boundary)], [ENCRYPTED_DESCRIPTION], [SEVEN_BIT_ENCODING]]
  {
    var groups := FoldLines(HeaderLines(header));
    var env := Select(groups, false);
    SelectMembers(groups, false);
    var tail := [[ENCRYPTED_CONTENT_TYPE, BoundaryParameter(boundary)], [ENCRYPTED_DESCRIPTION], [SEVEN_BIT_ENCODING]];
    ProtectionTail(boundary);
    FoldLinesWellFolded(HeaderLines(header));
    SelectKeepsFolding(groups, false);
    FoldingShapeAppend(env, tail);
    FlattenAppend(env, ProtectionHeaders(boundary));
    FlattenAppend(env, tail);
    WellFoldedUnique(Flatten(env + tail), env + tail);
  }

  /** The appended lines, folded: the boundary line joins the Content-Type
      line, and each of the other two stands alone. */
  lemma ProtectionTail(boundary: string)
    ensures var tail := [[ENCRYPTED_CONTENT_TYPE, BoundaryParameter(boundary)], [ENCRYPTED_DESCRIPTION], [SEVEN_BIT_ENCODING]];
            && Flatten(tail) == Flatten(ProtectionHeaders(boundary))
            && FoldingShape(tail)
            && !StartsWithWhitespace(tail[0][0])
  {
    var ct, bp, cd, te := ENCRYPTED_CONTENT_TYPE, BoundaryParameter(boundary), ENCRYPTED_DESCRIPTION, SEVEN_BIT_ENCODING;
    var tail := [[ct, bp], [cd], [te]];
    assert Flatten(tail) == [ct, bp, cd, te] by {
      FlattenSnoc([], [ct, bp]);
      assert [[ct, bp], [cd]] == [[ct, bp]] + [[cd]];
      FlattenSnoc([[ct, bp]], [cd]);
      assert tail == [[ct, bp], [cd]] + [[te]];
      FlattenSnoc([[ct, bp], [cd]], [te]);
    }
    assert ct[0] == 'C' && cd[0] == 'C' && te[0] == 'C';
    Flatten4(ct, bp, cd, te);
  }

  lemma Flatten4(a: string, b: string, c: string, d: string)
    ensures Flatten([[a], [b], [c], [d]]) == [a, b, c, d]
  {
    FlattenSnoc([], [a]);
    assert [[a], [b]] == [[a]] + [[b]];
    FlattenSnoc([[a]], [b]);
    assert [[a], [b], [c]] == [[a], [b]] + [[c]];
    FlattenSnoc([[a], [b]], [c]);
    assert [[a], [b], [c], [d]] == [[a], [b], [c]] + [[d]];
    FlattenSnoc([[a], [b], [c]], [d]);
  }

  /** Serializing headers followed by further headers. */
  lemma SerializeWithTail(headers: seq<seq<string>>, tail: seq<seq<string>>, tailLines: seq<string>)
    requires forall k :: 0 <= k < |headers| ==> |headers[k]| > 0
    requires forall k :: 0 <= k < |tail| ==> |tail[k]| > 0
    requires Flatten(tail) == tailLines && |tailLines| > 0
    ensures SerializeHeaders(headers + tail) ==
              (if |headers| == 0 then "" else SerializeHeaders(headers) + CRLF) + Join(tailLines, CRLF)
  {
    var all := headers + tail;
    assert forall k :: 0 <= k < |all| ==> |all[k]| > 0;
    SerializeFlatten(all);
    FlattenAppend(headers, tail);
    if |headers| > 0 {
      assert |Flatten(headers)| > 0 by {
        var m := |headers|;
        assert headers == headers[..m - 1] + [headers[m - 1]];
        FlattenSnoc(headers[..m - 1], headers[m - 1]);
      }
      JoinAppend(Flatten(headers), tailLines, CRLF);
      SerializeFlatten(headers);
    } else {
      assert all == tail;
      assert Flatten(headers) == [];
    }
  }

  lemma Join4(a: string, b: string, c: string, d: string, sep: string)
    ensures Join([a, b, c, d], sep) == a + sep + b + sep + c + sep + d
  {
    assert [a, b, c, d][1..] == [b, c, d];
    assert [b, c, d][1..] == [c, d];
    assert [c, d][1..] == [d];
    assert Join([c, d], sep) == c + sep + d;
    assert Join([b, c, d], sep) == b + sep + (c + sep + d);
    assert Join([a, b, c, d], sep) == a + sep + (b + sep + (c + sep + d));
  }

  /** The plaintext handed to encryption:
      `${bodyHeaders} \r\n\r\n ${body}`, spaces included. */
  function PlainText(bodyHeaders: string, body: string): string
  {
    bodyHeaders + " \r\n\r\n " + body
  }

  const PREAMBLE: string := "This is an OpenPGP/MIME encrypted message\r\n\r\n"
  const CONTROL_PART: string :=
    "Content-Type: application/pgp-encrypted\r\n" + "Content-Transfer-Encoding: 7bit\r\n" + "\r\n" + "Version: 1\r\n" + "\r\n"
  const DATA_PART_HEADERS: string :=
    "Content-Type: application/octet-stream; name=encrypted.asc\r\n" +
    "Content-Disposition: inline; filename=encrypted.asc\r\n" +
    "Content-Transfer-Encoding: 7bit\r\n" + "\r\n"

  /** The `multipart/encrypted` body: preamble, the `application/pgp-encrypted`
      control part, the `application/octet-stream` part holding the armored
      ciphertext, and the close delimiter. */
  function MailBody(boundary: string, encrypted: string): string
  {
    PREAMBLE + PartDelimiter(boundary) + CONTROL_PART + PartDelimiter(boundary) +
    DATA_PART_HEADERS + encrypted + CloseDelimiter(boundary)
  }

  /** `'--' + boundary + '\r\n'`: the delimiter line opening a body part. */
  function PartDelimiter(boundary: string): string
  {
    "--" + boundary + CRLF
  }

  /** Everything of the body before the ciphertext. */
  function MailBodyHead(boundary: string): string
  {
    PREAMBLE + PartDelimiter(boundary) + CONTROL_PART + PartDelimiter(boundary) + DATA_PART_HEADERS
  }

  /** The close delimiter after the ciphertext. */
  function CloseDelimiter(boundary: string): string
  {
    "\r\n--" + boundary + "--\r\n"
  }

  /** Reads the ciphertext back out of a body built for `boundary`. */
  function ParseMailBody(mailBody: string, boundary: string): Option<string>
  {
    var head, tail := MailBodyHead(boundary), CloseDelimiter(boundary);
    if |mailBody| < |head| + |tail| || mailBody[..|head|] != head || mailBody[|mailBody| - |tail|..] != tail
    then None
    else Some(mailBody[|head|..|mailBody| - |tail|])
  }

  /** The body carries the ciphertext verbatim between its fixed head and
      the close delimiter, and parsing recovers it. */
  lemma MailBodyRoundTrip(boundary: string, encrypted: string)
    ensures MailBody(boundary, encrypted) == MailBodyHead(boundary) + encrypted + CloseDelimiter(boundary)
    ensures ParseMailBody(MailBody(boundary, encrypted), boundary) == Some(encrypted)
  {
    var m := MailBody(boundary, encrypted);
    var head, tail := MailBodyHead(boundary), CloseDelimiter(boundary);
    assert m == head + encrypted + tail;
    assert m[..|head|] == head;
    assert m[|m| - |tail|..] == tail;
    assert m[|head|..|m| - |tail|] == encrypted;
  }

  /** Positions in `p + d + c + d + h + e + t`. */
  lemma TwoDelimiters(p: string, d: string, c: string, h: string, e: string, t: string)
    ensures var m := p + d + c + d + h + e + t;
            && m[..|p|] == p
            && OccursAt(m, d, |p|)
            && m[|p| + |d|..|p| + |d| + |c|] == c
            && OccursAt(m, d, |p| + |d| + |c|)
            && m[|m| - |t|..] == t
  {
    var m := p + d + c + d + h + e + t;
    assert m[|p|..|p| + |d|] == d;
    assert m[|p| + |d| + |c|..|p| + |d| + |c| + |d|] == d;
  }

  /** The two part delimiters `--boundary` open lines right after the
      preamble and right after the control part, and the body ends with the
      close delimiter `--boundary--` on its own line. */
  lemma MailBodyDelimiters(boundary: string, encrypted: string)
    ensures var m := MailBody(boundary, encrypted);
            var d := PartDelimiter(boundary);
            var first := |PREAMBLE|;
            var second := first + |d| + |CONTROL_PART|;
            && m[..first] == PREAMBLE
            && OccursAt(m, d, first)
            && m[first + |d|..second] == CONTROL_PART
            && OccursAt(m, d, second)
            && |m| >= |CloseDelimiter(boundary)|
            && m[|m| - |CloseDelimiter(boundary)|..] == CloseDelimiter(boundary)
  {
    TwoDelimiters(PREAMBLE, PartDelimiter(boundary), CONTROL_PART, DATA_PART_HEADERS, encrypted, CloseDelimiter(boundary));
  }

  /** The emitted message: envelope, blank line, multipart body. */
  function EncryptedMessage(envelope: string, mailBody: string): string
  {
    envelope + BLANK_LINE + mailBody
  }
}

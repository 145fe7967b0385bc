/** `parse_scram_principal`: the user name in a SCRAM client-first message
    (section 5.1 and section 7 of RFC 5802). */
module Scram {
  import opened Primitives

  const COMMA: byte := 0x2c
  const EQUALS: byte := 0x3d

  function CommaAt(p: Bytes): (k: nat)
    ensures k <= |p| && COMMA !in p[..k] && (k < |p| ==> p[k] == COMMA)
  {
    if p == [] || p[0] == COMMA then 0 else 1 + CommaAt(p[1..])
  }

  predicate IsUserField(field: Bytes) {
    |field| > 2 && field[0] == 0x6e && field[1] == EQUALS
  }

  /** The text after `n=` in the first comma-separated field that has some. */
  function FirstUser(p: Bytes): Option<Bytes>
    decreases |p|
  {
    var k := CommaAt(p);
    if IsUserField(p[..k]) then Some(p[2..k])
    else if k == |p| then None
    else FirstUser(p[k + 1..])
  }

  /** `replace("=xy", to)`, left to right, never looking at its own output. */
  function Replace(s: Bytes, x: byte, y: byte, to: byte): Bytes {
    if s == [] then []
    else if |s| >= 3 && s[0] == EQUALS && s[1] == x && s[2] == y then [to] + Replace(s[3..], x, y, to)
    else [s[0]] + Replace(s[1..], x, y, to)
  }

  /** A control character, in UTF-8: U+0000-001F, U+007F, U+0080-009F. */
  predicate HasControl(s: Bytes) {
    exists i :: 0 <= i < |s| && ControlAt(s, i)
  }

  predicate ControlAt(s: Bytes, i: nat)
    requires i < |s|
  {
    s[i] < 0x20 || s[i] == 0x7f || (s[i] == 0xc2 && i + 1 < |s| && 0x80 <= s[i + 1] <= 0x9f)
  }

  function Unescape(encoded: Bytes): Bytes {
    Replace(Replace(encoded, 0x32, 0x43, COMMA), 0x33, 0x44, EQUALS)
  }

  function ParsePrincipal(rt: Runtime, payload: Bytes): Option<Bytes> {
    if !rt.utf8(payload) then None
    else
      var encoded :- FirstUser(payload);
      if |encoded| > 768 then None
      else
        var decoded := Unescape(encoded);
        if decoded != [] && |decoded| <= 256 && !HasControl(decoded) then Some(decoded) else None
  }

  /** A character from U+0000 to U+001F or from U+007F to U+009F starts at this byte. */
  predicate IsControl(s: Bytes, i: nat)
    requires i < |s|
  {
    || 0 <= s[i] <= 31 || s[i] == 127
    || (s[i] == 194 && i < |s| - 1 && 128 <= s[i + 1] <= 159)
  }

  lemma ControlMeans(s: Bytes)
    ensures HasControl(s) <==> exists i :: 0 <= i < |s| && IsControl(s, i)
  {
    forall i | 0 <= i < |s| ensures ControlAt(s, i) <==> IsControl(s, i) {
    }
  }

  // ---------------------------------------------------------------- the printer

  /** The `saslname` escaping of section 5.1 of RFC 5802. */
  function Escape(user: Bytes): Bytes {
    if user == [] then []
    else (if user[0] == COMMA then [EQUALS, 0x32, 0x43]
          else if user[0] == EQUALS then [EQUALS, 0x33, 0x44]
          else [user[0]]) + Escape(user[1..])
  }

  function EscapeEquals(user: Bytes): Bytes {
    if user == [] then []
    else (if user[0] == EQUALS then [EQUALS, 0x33, 0x44] else [user[0]]) + EscapeEquals(user[1..])
  }

  /** GS2 header (two fields), then the user name, then the rest of the message. */
  function ClientFirst(flag: Bytes, authzid: Bytes, user: Bytes, rest: Bytes): Bytes {
    flag + [COMMA] + (authzid + [COMMA] + ([0x6e, EQUALS] + Escape(user) + [COMMA] + rest))
  }

  // ---------------------------------------------------------------- round trip

  lemma ReplaceCopies(c: byte, rest: Bytes, x: byte, y: byte, to: byte)
    requires c != EQUALS || |rest| < 2 || rest[0] != x || rest[1] != y
    ensures Replace([c] + rest, x, y, to) == [c] + Replace(rest, x, y, to)
  {
    assert ([c] + rest)[1..] == rest;
  }

  lemma ReplaceHits(rest: Bytes, x: byte, y: byte, to: byte)
    ensures Replace([EQUALS, x, y] + rest, x, y, to) == [to] + Replace(rest, x, y, to)
  {
    assert ([EQUALS, x, y] + rest)[3..] == rest;
  }

  /** The comma pass undoes the comma escapes and leaves every other one whole. */
  lemma {:induction false} CommaPass(user: Bytes)
    ensures Replace(Escape(user), 0x32, 0x43, COMMA) == EscapeEquals(user)
  {
    if user == [] {
    } else {
      CommaPass(user[1..]);
      var rest := Escape(user[1..]);
      hide Replace;
      if user[0] == COMMA {
        ReplaceHits(rest, 0x32, 0x43, COMMA);
      } else if user[0] == EQUALS {
        assert Escape(user) == [EQUALS] + ([0x33] + ([0x44] + rest));
        ReplaceCopies(EQUALS, [0x33] + ([0x44] + rest), 0x32, 0x43, COMMA);
        ReplaceCopies(0x33, [0x44] + rest, 0x32, 0x43, COMMA);
        ReplaceCopies(0x44, rest, 0x32, 0x43, COMMA);
      } else {
        ReplaceCopies(user[0], rest, 0x32, 0x43, COMMA);
      }
    }
  }

  lemma {:induction false} EqualsPass(user: Bytes)
    ensures Replace(EscapeEquals(user), 0x33, 0x44, EQUALS) == user
  {
    if user == [] {
    } else {
      EqualsPass(user[1..]);
      var rest := EscapeEquals(user[1..]);
      hide Replace;
      if user[0] == EQUALS {
        ReplaceHits(rest, 0x33, 0x44, EQUALS);
      } else {
        ReplaceCopies(user[0], rest, 0x33, 0x44, EQUALS);
      }
      assert user == [user[0]] + user[1..];
    }
  }

  lemma {:induction false} EscapeShape(user: Bytes)
    ensures COMMA !in Escape(user)
    ensures |user| <= |Escape(user)| <= 3 * |user|
  {
    if user == [] {
    } else {
      EscapeShape(user[1..]);
    }
  }

  lemma CommaSplit(field: Bytes, rest: Bytes)
    requires COMMA !in field
    ensures CommaAt(field + [COMMA] + rest) == |field|
    ensures (field + [COMMA] + rest)[|field| + 1..] == rest
    ensures (field + [COMMA] + rest)[..|field|] == field
  {
    var p := field + [COMMA] + rest;
    forall k | 0 <= k < |field| ensures p[k] != COMMA {
      assert p[k] == field[k];
    }
    forall k | |field| < k <= |p| ensures COMMA in p[..k] {
      assert p[..k][|field|] == COMMA;
    }
  }

  lemma SkipField(field: Bytes, rest: Bytes)
    requires COMMA !in field && !IsUserField(field)
    ensures FirstUser(field + [COMMA] + rest) == FirstUser(rest)
  {
    CommaSplit(field, rest);
  }

  lemma TakeField(user: Bytes, rest: Bytes)
    requires user != [] && COMMA !in user
    ensures FirstUser([0x6e, EQUALS] + user + [COMMA] + rest) == Some(user)
  {
    var field := [0x6e, EQUALS] + user;
    CommaSplit(field, rest);
    var p := field + [COMMA] + rest;
    assert p[2..|field|] == user;
  }

  /** Every user name comes back, and comes back exactly when it is one the monitor
      keeps: the two replacements never interfere, and the 768-byte guard rejects
      nothing that the 256-byte limit would have accepted. */
  lemma UserNameRoundTrip(rt: Runtime, flag: Bytes, authzid: Bytes, user: Bytes, rest: Bytes)
    requires COMMA !in flag && COMMA !in authzid && !IsUserField(flag) && !IsUserField(authzid)
    requires user != [] && rt.utf8(ClientFirst(flag, authzid, user, rest))
    ensures ParsePrincipal(rt, ClientFirst(flag, authzid, user, rest)) ==
            if |user| <= 256 && (forall i :: 0 <= i < |user| ==> !IsControl(user, i)) then Some(user) else None
  {
    hide FirstUser, HasControl, IsControl;
    ControlMeans(user);
    EscapeShape(user);
    var tail := [0x6e, EQUALS] + Escape(user) + [COMMA] + rest;
    SkipField(flag, authzid + [COMMA] + tail);
    SkipField(authzid, tail);
    TakeField(Escape(user), rest);
    CommaPass(user);
    EqualsPass(user);
  }
}

/**
 The character reader beneath the text formats. A string stands for the runes the reader decodes;
 the reader can step back once after each successful read.
 */
module LexerBase {
  import opened Strings
  import opened Wrappers
  import Decimal

  const MAX_INT64: int := 0x7fff_ffff_ffff_ffff

  function IsChar(c: char): char -> bool { d => d == c }

  /** A number is absent, or too large for the integer type; the source panics on the latter. */
  datatype Number = NoNumber | Number(n: nat) | TooLarge

  /** The number at the start of a string; the digits are consumed in any case. */
  function NumberAt(s: string): Number {
    var k := Span(Decimal.IsDigit, s);
    if k == 0 then NoNumber
    else if Decimal.Value(s[..k]) > MAX_INT64 then TooLarge
    else Number(Decimal.Value(s[..k]))
  }

  /** What a quoted string contains, up to its closing quote or the end of the input. */
  datatype Quotation = Quotation(text: string, closed: bool, rest: string)

  /** The quoted string whose opening quote has been read: a doubled quote stands for one. */
  function QuotedBody(s: string, q: char): (r: Quotation)
    ensures |r.rest| <= |s| && (s != "" ==> |r.rest| < |s|)
  {
    if s == "" then Quotation("", false, "")
    else if s[0] == q && !(|s| > 1 && s[1] == q) then Quotation("", true, s[1..])
    else
      var more := QuotedBody(if s[0] == q then s[2..] else s[1..], q);
      more.(text := [s[0]] + more.text)
  }

  /** Doubles every quote. */
  function Escape(s: string, q: char): string { Replace(s, q, [q, q]) }

  /** Escaping survives the reader: whatever a string contains, it is read back. */
  lemma {:induction false} QuotedRoundTrip(s: string, q: char, rest: string)
    requires rest == "" || rest[0] != q
    ensures QuotedBody(Escape(s, q) + [q] + rest, q) == Quotation(s, true, rest)
  {
    if s == "" {
      assert Escape(s, q) + [q] + rest == [q] + rest;
      assert ([q] + rest)[1..] == rest;
    } else {
      QuotedRoundTrip(s[1..], q, rest);
      var head, tail := if s[0] == q then [q, q] else [s[0]], Escape(s[1..], q) + [q] + rest;
      assert Escape(s, q) + [q] + rest == head + tail;
      assert (head + tail)[|head|..] == tail;
      assert [s[0]] + s[1..] == s;
    }
  }

  class Lexer {
    const input: string
    var pos: nat
    var canUnread: bool   // the last operation on the reader was a successful read

    ghost predicate Valid()
      reads this
    {
      pos <= |input| && (canUnread ==> pos > 0)
    }

    /** What has not been read yet. */
    ghost function Rest(): string
      reads this
      requires Valid()
    {
      input[pos..]
    }

    constructor (str: string)
      ensures Valid() && Rest() == str
    {
      input, pos, canUnread := str, 0, false;
    }

    method Read() returns (r: Option<char>)
      requires Valid()
      modifies this`pos, this`canUnread
      ensures Valid() && canUnread == r.Some?
      ensures r == if old(Rest()) == "" then None else Some(old(Rest())[0])
      ensures Rest() == if old(Rest()) == "" then "" else old(Rest())[1..]
      ensures r.Some? ==> pos == old(pos) + 1
    {
      if pos == |input| {
        canUnread := false;
        return None;
      }
      r := Some(input[pos]);
      pos := pos + 1;
      canUnread := true;
    }

    /** Steps back over the character just read; without one the source panics. */
    method Backup()
      requires Valid() && canUnread
      modifies this`pos, this`canUnread
      ensures Valid() && pos == old(pos) - 1
    {
      pos, canUnread := pos - 1, false;
    }

    method IsEOF() returns (eof: bool)
      requires Valid()
      modifies this`pos, this`canUnread
      ensures Valid() && Rest() == old(Rest())
      ensures eof <==> Rest() == ""
    {
      var r := Read();
      if r.None? {
        return true;
      }
      Backup();
      eof := false;
    }

    method ReadIf(p: char -> bool) returns (r: Option<char>)
      requires Valid()
      modifies this`pos, this`canUnread
      ensures Valid()
      ensures var s := old(Rest());
              if s != "" && p(s[0]) then r == Some(s[0]) && Rest() == s[1..] else r == None && Rest() == s
    {
      r := Read();
      if r.None? {
        return;
      }
      if !p(r.value) {
        Backup();
        r := None;
      }
    }

    method ReadWhile(p: char -> bool) returns (str: string)
      requires Valid()
      modifies this`pos, this`canUnread
      ensures Valid()
      ensures var k := Span(p, old(Rest())); str == old(Rest())[..k] && Rest() == old(Rest())[k..]
    {
      ghost var s := Rest();
      str := "";
      while true
        invariant Valid() && s == str + Rest()
        invariant forall i :: 0 <= i < |str| ==> p(str[i])
        decreases |Rest()|
      {
        ghost var rest := Rest();
        var r := ReadIf(p);
        if r.None? {
          break;
        }
        TakeOne(str, rest);
        str := str + [r.value];
      }
      SpanOf(p, str, Rest());
      DropFront(str, Rest());
    }

    method ReadInt() returns (r: Number)
      requires Valid()
      modifies this`pos, this`canUnread
      ensures Valid() && r == NumberAt(old(Rest()))
      ensures Rest() == old(Rest())[Span(Decimal.IsDigit, old(Rest()))..]
    {
      var str := ReadWhile(Decimal.IsDigit);
      if str == "" {
        return NoNumber;
      }
      var n := Decimal.Value(str);
      r := if n > MAX_INT64 then TooLarge else Number(n);
    }

    method ReadChar(c: char) returns (ok: bool)
      requires Valid()
      modifies this`pos, this`canUnread
      ensures Valid()
      ensures var s := old(Rest());
              && (ok <==> s != "" && s[0] == c)
              && Rest() == if ok then s[1..] else s
    {
      var r := ReadIf(IsChar(c));
      ok := r.Some?;
    }

    /** A quoted string; None when there is no opening quote. */
    method ReadQuotedString(q: char) returns (r: Option<(string, bool)>)
      requires Valid()
      modifies this`pos, this`canUnread
      ensures Valid()
      ensures var s := old(Rest());
              if s == "" || s[0] != q then r == None && Rest() == s
              else
                var body := QuotedBody(s[1..], q);
                r == Some((body.text, body.closed)) && Rest() == body.rest
    {
      var quoted := ReadChar(q);
      if !quoted {
        return None;
      }
      ghost var body := QuotedBody(Rest(), q);
      var str := "";
      while true
        invariant Valid()
        invariant str + QuotedBody(Rest(), q).text == body.text
        invariant QuotedBody(Rest(), q).closed == body.closed && QuotedBody(Rest(), q).rest == body.rest
        decreases |Rest()|
      {
        ghost var s := Rest();
        var ch := Read();
        if ch.None? {
          break;
        }
        if ch.value == q {
          var doubled := ReadChar(q);
          if !doubled {
            assert body.text == str + "" == str;
            return Some((str, true));
          }
          assert s[1..][1..] == s[2..];
        }
        Assoc(str, [ch.value], QuotedBody(Rest(), q).text);
        str := str + [ch.value];
      }
      assert body.text == str + "" == str;
      r := Some((str, false));
    }
  }
}

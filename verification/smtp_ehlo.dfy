/**
 * The TCP EHLO flow of the SMTP client: a two-state machine that sends
 * `EHLO <domain>` and then reads the multi-line reply (section 4.1.1.1 of
 * RFC 5321) through the shared SMTP-response sub-machine.  Its post-hook
 * records whether the server offers STARTTLS and picks an authentication
 * mechanism from the `AUTH` keyword lines (RFC 4954).
 *
 * The generic state-machine library and the response sub-machine are not
 * part of this model: the sub-machine's outcome is an input (a failure, or
 * a reply code and its lines), and the helper the post-hook returns through
 * passes the status on unchanged.
 */
module SmtpEhlo {
  import opened Strings

  /** M_net_smtp_authtype_t */
  datatype AuthType = AuthNone | AuthLogin | AuthPlain | AuthCramMd5 | AuthDigestMd5

  /** The M_state_machine_status_t values this flow produces or receives. */
  datatype MachineStatus = StatusNext | StatusDone | StatusErrorState | StatusWait

  /** M_net_error_t, as far as this flow sets it. */
  datatype NetError = NetErrorSuccess | NetErrorProtoFormat | NetErrorOther(code: nat)

  /** The id of the state that reads the EHLO reply (m_state_ids). */
  const StateEhloResponse: nat := 2

  /** The reply code the EHLO command must receive. */
  const EhloOkCode: nat := 250

  /** The line the EHLO state writes. */
  function EhloCommand(domain: string): (cmd: string)
    ensures |cmd| == |domain| + 7
    ensures cmd[..5] == "EHLO " && cmd[5..|cmd| - 2] == domain && cmd[|cmd| - 2..] == "\r\n"
  {
    "EHLO " + domain + "\r\n"
  }

  /** The fixed text that opens the diagnostic for an unexpected code. */
  const UnexpectedCodePrefix := "Expected 250 EHLO response code, got: "

  /**
   * The diagnostic formatted when the reply code is not 250: the fixed text
   * and then the code in decimal, which reads back as the code.
   */
  function UnexpectedCodeMessage(code: nat): (r: string)
    ensures |r| > |UnexpectedCodePrefix| && r[..|UnexpectedCodePrefix|] == UnexpectedCodePrefix
    ensures forall i :: |UnexpectedCodePrefix| <= i < |r| ==> IsDigit(r[i])
    ensures DecimalValue(r[|UnexpectedCodePrefix|..]) == code
  {
    DecimalRoundTrip(code);
    var r := UnexpectedCodePrefix + DecimalString(code);
    assert r[|UnexpectedCodePrefix|..] == DecimalString(code);
    r
  }

  /**
   * The diagnostic is cut to the error buffer, and when the buffer is large
   * enough it ends with the received code in decimal.
   */
  lemma UnexpectedCodeMessageBounded(code: nat, size: nat)
    requires size >= 1
    ensures |Truncated(UnexpectedCodeMessage(code), size)| < size
    ensures size > |UnexpectedCodeMessage(code)| ==>
      var m := Truncated(UnexpectedCodeMessage(code), size);
      |m| >= |DecimalString(code)| &&
      m[|m| - |DecimalString(code)|..] == DecimalString(code) &&
      DecimalValue(m[|m| - |DecimalString(code)|..]) == code
  {
    DecimalRoundTrip(code);
  }

  // ---------------------------------------------------------------------
  // Choosing the authentication mechanism from one AUTH line

  /** The mechanism a single token names (case-insensitive); anything else is ignored. */
  function MechanismOf(token: string): AuthType
  {
    if CaseEq(token, "DIGEST-MD5") then AuthDigestMd5
    else if CaseEq(token, "CRAM-MD5") then AuthCramMd5
    else if CaseEq(token, "PLAIN") then AuthPlain
    else if CaseEq(token, "LOGIN") then AuthLogin
    else AuthNone
  }

  /** The fixed preference: DIGEST-MD5 > CRAM-MD5 > PLAIN > LOGIN > none. */
  function Rank(a: AuthType): nat
  {
    match a
    case AuthNone => 0
    case AuthLogin => 1
    case AuthPlain => 2
    case AuthCramMd5 => 3
    case AuthDigestMd5 => 4
  }

  /** Some token of the line names mechanism `m`. */
  predicate Advertised(tokens: seq<string>, m: AuthType)
  {
    exists i :: 0 <= i < |tokens| && MechanismOf(tokens[i]) == m
  }

  /**
   * The mechanism chosen from the tokens of one AUTH line: the most
   * preferred one the line advertises, or none.
   */
  function SelectAuth(tokens: seq<string>): (r: AuthType)
    ensures r == AuthNone || Advertised(tokens, r)
    ensures forall i :: 0 <= i < |tokens| ==> Rank(MechanismOf(tokens[i])) <= Rank(r)
  {
    if Advertised(tokens, AuthDigestMd5) then AuthDigestMd5
    else if Advertised(tokens, AuthCramMd5) then AuthCramMd5
    else if Advertised(tokens, AuthPlain) then AuthPlain
    else if Advertised(tokens, AuthLogin) then AuthLogin
    else AuthNone
  }

  /** The preferred of two mechanisms. */
  function Better(a: AuthType, b: AuthType): AuthType
  {
    if Rank(b) > Rank(a) then b else a
  }

  lemma AdvertisedSnoc(tokens: seq<string>, u: string, m: AuthType)
    ensures Advertised(tokens + [u], m) <==> Advertised(tokens, m) || MechanismOf(u) == m
  {
    var t := tokens + [u];
    if Advertised(t, m) {
      var i :| 0 <= i < |t| && MechanismOf(t[i]) == m;
      if i < |tokens| {
        assert tokens[i] == t[i];
      }
    }
    if Advertised(tokens, m) {
      var i :| 0 <= i < |tokens| && MechanismOf(tokens[i]) == m;
      assert t[i] == tokens[i];
    }
    if MechanismOf(u) == m {
      assert t[|tokens|] == u;
    }
  }

  /** Scanning one more token keeps the better of the choice so far and that token. */
  lemma SelectAuthSnoc(tokens: seq<string>, u: string)
    ensures SelectAuth(tokens + [u]) == Better(SelectAuth(tokens), MechanismOf(u))
  {
    AdvertisedSnoc(tokens, u, AuthDigestMd5);
    AdvertisedSnoc(tokens, u, AuthCramMd5);
    AdvertisedSnoc(tokens, u, AuthPlain);
    AdvertisedSnoc(tokens, u, AuthLogin);
  }

  lemma AdvertisedPermuted(t1: seq<string>, t2: seq<string>, m: AuthType)
    requires multiset(t1) == multiset(t2)
    requires Advertised(t1, m)
    ensures Advertised(t2, m)
  {
    var i :| 0 <= i < |t1| && MechanismOf(t1[i]) == m;
    assert t1[i] in multiset(t1);
    assert t1[i] in t2;
    var j :| 0 <= j < |t2| && t2[j] == t1[i];
  }

  /** The choice does not depend on the order in which the line lists the mechanisms. */
  lemma SelectAuthOrderIndependent(t1: seq<string>, t2: seq<string>)
    requires multiset(t1) == multiset(t2)
    ensures SelectAuth(t1) == SelectAuth(t2)
  {
    forall m | Advertised(t1, m) ensures Advertised(t2, m) {
      AdvertisedPermuted(t1, t2, m);
    }
    forall m | Advertised(t2, m) ensures Advertised(t1, m) {
      AdvertisedPermuted(t2, t1, m);
    }
  }

  /** A DIGEST-MD5 token anywhere on the line selects DIGEST-MD5. */
  lemma DigestAnywhereWins(tokens: seq<string>, i: nat)
    requires i < |tokens| && CaseEq(tokens[i], "DIGEST-MD5")
    ensures SelectAuth(tokens) == AuthDigestMd5
  {
    assert MechanismOf(tokens[i]) == AuthDigestMd5;
  }

  /** An unknown (or empty) token anywhere on the line changes nothing. */
  lemma SelectAuthIgnoresUnknown(before: seq<string>, u: string, after: seq<string>)
    requires MechanismOf(u) == AuthNone
    ensures SelectAuth(before + [u] + after) == SelectAuth(before + after)
  {
    var t1 := before + [u] + after;
    var t2 := before + after;
    forall m | m != AuthNone && Advertised(t1, m) ensures Advertised(t2, m) {
      var i :| 0 <= i < |t1| && MechanismOf(t1[i]) == m;
      if i < |before| {
        assert t2[i] == t1[i];
      } else {
        assert i > |before|;
        assert t2[i - 1] == t1[i];
      }
    }
    forall m | Advertised(t2, m) ensures Advertised(t1, m) {
      var i :| 0 <= i < |t2| && MechanismOf(t2[i]) == m;
      if i < |before| {
        assert t1[i] == t2[i];
      } else {
        assert t1[i + 1] == t2[i];
      }
    }
  }

  // ---------------------------------------------------------------------
  // Reading the EHLO reply lines

  /** `STARTTLS` over its 8 characters, case-insensitively; longer lines still match. */
  predicate IsStarttlsLine(line: string)
  {
    CaseEqMax("STARTTLS", line, 8)
  }

  /** `AUTH ` over its 5 characters (with the space, so `AUTH=` does not match). */
  predicate IsAuthLine(line: string)
  {
    CaseEqMax("AUTH ", line, 5)
  }

  /** The text after `AUTH ` on an AUTH line. */
  function AuthArgs(line: string): (args: string)
    requires IsAuthLine(line)
    ensures |line| >= 5 && args == line[5..]
  {
    CaseEqMaxIsPrefix("AUTH ", line);
    line[5..]
  }

  /** A STARTTLS line is one that starts with the 8 letters in any case: longer lines match, shorter never. */
  lemma StarttlsLineIsPrefix(line: string)
    ensures IsStarttlsLine(line) <==> |line| >= 8 && CaseEq(line[..8], "STARTTLS")
  {
    CaseEqMaxIsPrefix("STARTTLS", line);
  }

  /** `AUTH=` lines (the pre-standard form) are never taken as AUTH lines. */
  lemma AuthEqualsLineIgnored(line: string)
    requires |line| >= 5 && line[4] == '='
    ensures !IsAuthLine(line)
  {
    CaseEqMaxIsPrefix("AUTH ", line);
    assert Lower(line[..5])[4] == '=';
    assert Lower("AUTH ")[4] == ' ';
  }

  /** A line matched as STARTTLS never is an AUTH line (the first letters differ). */
  lemma StarttlsLineIsNotAuthLine(line: string)
    requires IsStarttlsLine(line)
    ensures !IsAuthLine(line)
  {
    CaseEqMaxIsPrefix("STARTTLS", line);
    CaseEqMaxIsPrefix("AUTH ", line);
    assert ToLower(line[0]) == Lower(line[..8])[0] == Lower("STARTTLS")[0] == 's';
    assert Lower("AUTH ")[0] == 'a';
  }

  /** Some line of the reply announces STARTTLS. */
  predicate StarttlsAdvertised(lines: seq<string>)
  {
    exists i :: 0 <= i < |lines| && IsStarttlsLine(lines[i])
  }

  /** An AUTH line that the post-hook hands to the mechanism selection. */
  predicate UsedAsAuthLine(line: string)
  {
    !IsStarttlsLine(line) && IsAuthLine(line)
  }

  /** The mechanism one AUTH line selects. */
  function AuthLineChoice(line: string): AuthType
    requires IsAuthLine(line)
  {
    SelectAuth(Split(AuthArgs(line), ' '))
  }

  /**
   * The mechanism the post-hook leaves after scanning `lines`: each AUTH line
   * replaces the previous choice, so it is decided by the last such line.
   */
  function NegotiatedAuth(lines: seq<string>): AuthType
  {
    if lines == [] then AuthNone
    else
      var last := lines[|lines| - 1];
      if UsedAsAuthLine(last) then AuthLineChoice(last)
      else NegotiatedAuth(lines[..|lines| - 1])
  }

  /** A negotiated mechanism always comes from one of the reply's AUTH lines. */
  lemma {:induction false} NegotiatedAuthFromLine(lines: seq<string>)
    ensures NegotiatedAuth(lines) == AuthNone ||
      exists i :: 0 <= i < |lines| && UsedAsAuthLine(lines[i]) && NegotiatedAuth(lines) == AuthLineChoice(lines[i])
  {
    if lines != [] && !UsedAsAuthLine(lines[|lines| - 1]) {
      var init := lines[..|lines| - 1];
      NegotiatedAuthFromLine(init);
      assert forall i :: 0 <= i < |init| ==> init[i] == lines[i];
    }
  }

  lemma StarttlsAdvertisedSnoc(lines: seq<string>, line: string)
    ensures StarttlsAdvertised(lines + [line]) <==> StarttlsAdvertised(lines) || IsStarttlsLine(line)
  {
    var t := lines + [line];
    if IsStarttlsLine(line) {
      assert t[|lines|] == line;
    }
    if StarttlsAdvertised(lines) {
      var j :| 0 <= j < |lines| && IsStarttlsLine(lines[j]);
      assert t[j] == lines[j];
    }
    if StarttlsAdvertised(t) {
      var j :| 0 <= j < |t| && IsStarttlsLine(t[j]);
      if j < |lines| {
        assert t[j] == lines[j];
      }
    }
  }

  lemma NegotiatedAuthSnoc(lines: seq<string>, line: string)
    ensures NegotiatedAuth(lines + [line]) ==
      if UsedAsAuthLine(line) then AuthLineChoice(line) else NegotiatedAuth(lines)
  {
    assert (lines + [line])[..|lines|] == lines;
  }

  /** With no AUTH line the negotiated mechanism is none. */
  lemma {:induction false} NoAuthLineNoAuth(lines: seq<string>)
    requires forall i :: 0 <= i < |lines| ==> !UsedAsAuthLine(lines[i])
    ensures NegotiatedAuth(lines) == AuthNone
  {
    if lines != [] {
      NoAuthLineNoAuth(lines[..|lines| - 1]);
    }
  }

  /** The last AUTH line alone decides the mechanism; earlier ones are forgotten. */
  lemma {:induction false} LastAuthLineDecides(lines: seq<string>, k: nat)
    requires k < |lines| && UsedAsAuthLine(lines[k])
    requires forall j :: k < j < |lines| ==> !UsedAsAuthLine(lines[j])
    ensures NegotiatedAuth(lines) == AuthLineChoice(lines[k])
  {
    if k < |lines| - 1 {
      LastAuthLineDecides(lines[..|lines| - 1], k);
    }
  }

  /** The token `LOGIN` names LOGIN and nothing preferred. */
  lemma LoginToken()
    ensures MechanismOf("LOGIN") == AuthLogin
  {
    assert Lower("LOGIN")[0] == 'l';
    assert Lower("DIGEST-MD5")[0] == 'd' && Lower("CRAM-MD5")[0] == 'c' && Lower("PLAIN")[0] == 'p';
  }

  /** A line holding only `LOGIN` selects LOGIN. */
  lemma LoginOnlySelectsLogin()
    ensures SelectAuth(Split("LOGIN", ' ')) == AuthLogin
  {
    assert Free("LOGIN", ' ');
    SplitFree("LOGIN", ' ');
    var toks := ["LOGIN"];
    LoginToken();
    assert MechanismOf(toks[0]) == AuthLogin;
    assert Advertised(toks, AuthLogin);
  }

  /** `AUTH LOGIN` is an AUTH line that selects LOGIN. */
  lemma LoginLine()
    ensures UsedAsAuthLine("AUTH LOGIN") && AuthLineChoice("AUTH LOGIN") == AuthLogin
  {
    var line := "AUTH LOGIN";
    assert !IsStarttlsLine(line) by {
      CaseEqMaxIsPrefix("STARTTLS", line);
      assert Lower(line[..8])[0] == 'a';
    }
    assert IsAuthLine(line) by {
      CaseEqMaxIsPrefix("AUTH ", line);
      assert line[..5] == "AUTH ";
    }
    assert AuthArgs(line) == "LOGIN";
    LoginOnlySelectsLogin();
  }

  /** An earlier AUTH line offering a better mechanism does not survive a later one. */
  lemma NoUpgradeAcrossLines()
    ensures NegotiatedAuth(["AUTH CRAM-MD5", "AUTH LOGIN"]) == AuthLogin
  {
    LoginLine();
    var lines := ["AUTH CRAM-MD5", "AUTH LOGIN"];
    assert lines[|lines| - 1] == "AUTH LOGIN";
  }

  // ---------------------------------------------------------------------
  // The per-session negotiation context

  /** Capacity of an error-message buffer. */
  type BufferSize = n: nat | n >= 1 witness 1

  /** The fields of M_net_smtp_endpoint_slot_t that the EHLO flow reads or writes. */
  class Slot {
    var outBuf: string
    var ehloDomain: string
    var responseCode: nat
    var response: seq<string>
    var isStarttlsCapable: bool
    var authType: AuthType
    var isConnectFail: bool
    var netError: NetError
    var errmsg: string
    /** sizeof(slot->errmsg); its value lives in a header that is not part of this model. */
    const errmsgSize: BufferSize

    constructor (domain: string, size: BufferSize)
      ensures ehloDomain == domain && errmsgSize == size
      ensures outBuf == [] && response == [] && errmsg == []
      ensures !isStarttlsCapable && authType == AuthNone && !isConnectFail
      ensures netError == NetErrorSuccess
    {
      outBuf := [];
      ehloDomain := domain;
      responseCode := 0;
      response := [];
      isStarttlsCapable := false;
      authType := AuthNone;
      isConnectFail := false;
      netError := NetErrorSuccess;
      errmsg := [];
      errmsgSize := size;
    }

    /** M_state_ehlo: queue the EHLO command and move on to reading the reply. */
    method EhloState() returns (status: MachineStatus, next: nat)
      modifies this`outBuf
      ensures outBuf == old(outBuf) + EhloCommand(ehloDomain)
      ensures status == StatusNext && next == StateEhloResponse
    {
      outBuf := outBuf + "EHLO " + ehloDomain + "\r\n";
      next := StateEhloResponse;
      status := StatusNext;
    }

    /**
     * determine_auth_method: scan the space-separated tokens of one AUTH
     * line, starting again from no mechanism.
     */
    method DetermineAuthMethod(line: string)
      modifies this`authType
      ensures authType == SelectAuth(Split(line, ' '))
    {
      var foundPriority: nat := 0;
      authType := AuthNone;
      var methods := Split(line, ' ');
      for i := 0 to |methods|
        invariant authType == SelectAuth(methods[..i])
        invariant authType != AuthDigestMd5 && foundPriority == Rank(authType)
      {
        SelectAuthSnoc(methods[..i], methods[i]);
        assert methods[..i + 1] == methods[..i] + [methods[i]];
        if CaseEq(methods[i], "DIGEST-MD5") {
          authType := AuthDigestMd5;
          assert Advertised(methods, AuthDigestMd5) by {
            assert MechanismOf(methods[i]) == AuthDigestMd5;
          }
          break;
        }
        if foundPriority == 3 {
          continue;
        }
        if CaseEq(methods[i], "CRAM-MD5") {
          authType := AuthCramMd5;
          foundPriority := 3;
          continue;
        }
        if foundPriority == 2 {
          continue;
        }
        if CaseEq(methods[i], "PLAIN") {
          authType := AuthPlain;
          foundPriority := 2;
          continue;
        }
        if foundPriority == 1 {
          continue;
        }
        if CaseEq(methods[i], "LOGIN") {
          authType := AuthLogin;
          foundPriority := 1;
        }
      }
      assert methods[..|methods|] == methods;
    }

    /**
     * M_ehlo_response_post_cb: interpret the reply the sub-machine collected
     * into `responseCode` and `response`.
     */
    method EhloResponsePost(subStatus: MachineStatus) returns (status: MachineStatus)
      modifies this`isStarttlsCapable, this`authType, this`isConnectFail, this`netError, this`errmsg
      ensures subStatus == StatusErrorState ==> status == StatusErrorState && unchanged(this)
      ensures subStatus != StatusErrorState && responseCode != EhloOkCode ==>
        && status == StatusErrorState
        && isConnectFail && netError == NetErrorProtoFormat
        && errmsg == Truncated(UnexpectedCodeMessage(responseCode), errmsgSize)
        && isStarttlsCapable == old(isStarttlsCapable) && authType == old(authType)
      ensures subStatus != StatusErrorState && responseCode == EhloOkCode ==>
        && status == StatusDone
        && isStarttlsCapable == StarttlsAdvertised(response)
        && authType == NegotiatedAuth(response)
        && isConnectFail == old(isConnectFail) && netError == old(netError) && errmsg == old(errmsg)
    {
      status := StatusErrorState;
      if subStatus == StatusErrorState {
        return;
      }
      if responseCode != EhloOkCode {
        isConnectFail := true;
        netError := NetErrorProtoFormat;
        errmsg := Truncated(UnexpectedCodeMessage(responseCode), errmsgSize);
        return;
      }
      ScanReply();
      status := StatusDone;
    }

    /** The loop of the post-hook over the reply lines, starting from no STARTTLS and no mechanism. */
    method ScanReply()
      modifies this`isStarttlsCapable, this`authType
      ensures isStarttlsCapable == StarttlsAdvertised(response)
      ensures authType == NegotiatedAuth(response)
    {
      isStarttlsCapable := false;
      authType := AuthNone;
      var i := 0;
      while i < |response|
        invariant 0 <= i <= |response|
        invariant isStarttlsCapable == StarttlsAdvertised(response[..i])
        invariant authType == NegotiatedAuth(response[..i])
      {
        var line := response[i];
        assert response[..i + 1] == response[..i] + [line];
        StarttlsAdvertisedSnoc(response[..i], line);
        NegotiatedAuthSnoc(response[..i], line);
        ScanLine(line);
        i := i + 1;
      }
      assert response[..i] == response;
    }

    /**
     * One pass of the post-hook's loop over the reply lines: a STARTTLS line
     * sets the flag and moves on; an AUTH line hands its arguments to the
     * mechanism selection; any other line is skipped.
     */
    method ScanLine(line: string)
      modifies this`isStarttlsCapable, this`authType
      ensures isStarttlsCapable == (old(isStarttlsCapable) || IsStarttlsLine(line))
      ensures authType == if UsedAsAuthLine(line) then AuthLineChoice(line) else old(authType)
    {
      if CaseEqMax("STARTTLS", line, 8) {
        isStarttlsCapable := true;
        return;
      }
      if CaseEqMax("AUTH ", line, 5) {
        CaseEqMaxIsPrefix("AUTH ", line);
        DetermineAuthMethod(line[5..]);
      }
    }
  }

  /** What the SMTP-response sub-machine delivers: a failure, or a parsed reply. */
  datatype ResponseReply = ReplyFailed | Reply(code: nat, lines: seq<string>)

  /**
   * M_net_smtp_flow_tcp_ehlo run to completion: the EHLO state, then the
   * response sub-machine (which stores the reply in the slot), then the
   * post-hook.
   */
  method RunEhloFlow(slot: Slot, reply: ResponseReply) returns (status: MachineStatus)
    modifies slot
    ensures slot.outBuf == old(slot.outBuf) + EhloCommand(slot.ehloDomain)
    ensures slot.ehloDomain == old(slot.ehloDomain)
    ensures reply.ReplyFailed? ==>
      && status == StatusErrorState
      && slot.responseCode == old(slot.responseCode) && slot.response == old(slot.response)
      && slot.isConnectFail == old(slot.isConnectFail) && slot.netError == old(slot.netError)
      && slot.errmsg == old(slot.errmsg)
      && slot.isStarttlsCapable == old(slot.isStarttlsCapable) && slot.authType == old(slot.authType)
    ensures reply.Reply? ==> slot.responseCode == reply.code && slot.response == reply.lines
    ensures reply.Reply? && reply.code != EhloOkCode ==>
      && status == StatusErrorState
      && slot.isConnectFail && slot.netError == NetErrorProtoFormat
      && slot.errmsg == Truncated(UnexpectedCodeMessage(reply.code), slot.errmsgSize)
      && slot.isStarttlsCapable == old(slot.isStarttlsCapable) && slot.authType == old(slot.authType)
    ensures reply.Reply? && reply.code == EhloOkCode ==>
      && status == StatusDone
      && slot.isStarttlsCapable == StarttlsAdvertised(reply.lines)
      && slot.authType == NegotiatedAuth(reply.lines)
      && slot.isConnectFail == old(slot.isConnectFail) && slot.netError == old(slot.netError)
      && slot.errmsg == old(slot.errmsg)
  {
    var st, next := slot.EhloState();
    assert next == StateEhloResponse;
    var subStatus: MachineStatus;
    match reply {
      case ReplyFailed =>
        subStatus := StatusErrorState;
      case Reply(code, lines) =>
        slot.responseCode := code;
        slot.response := lines;
        subStatus := StatusDone;
    }
    status := slot.EhloResponsePost(subStatus);
  }
}

/**
 * The Oracle driver adapter of the SQL client: the functions it registers
 * under the name "ora" for version and user lookup, password change, error
 * decoding, password-error detection, column-name normalisation and
 * statement preparation.
 */
module Oracle {
  import opened Wrappers
  import opened GoStrings
  import opened GoFmt

  /** The name the adapter registers its functions under. */
  const DriverName := "ora"

  /**
   * An error handed to the adapter: the text its `Error()` method returns, and
   * the number its `Code()` method returns when the error has such a method.
   */
  datatype Error = Error(text: string, code: Option<int>)

  // ---------------------------------------------------------------------------
  // The connection

  /** What `QueryRow(q).Scan(&v)` leaves: the scanned value and the error, if any. */
  datatype Scan = Scan(value: string, err: Option<Error>)

  /**
   * The connection the client hands to the adapter. Its answers to queries and
   * statements are fixed functions; the statements executed on it are logged.
   */
  class DB {
    const queryRow: string -> Scan
    const execResult: string -> Option<Error>
    var executed: seq<string>

    constructor (queryRow: string -> Scan, execResult: string -> Option<Error>)
      ensures this.queryRow == queryRow && this.execResult == execResult
      ensures executed == []
    {
      this.queryRow := queryRow;
      this.execResult := execResult;
      executed := [];
    }

    /** `db.Exec(query)`: runs one statement and reports its error. */
    method Exec(query: string) returns (err: Option<Error>)
      modifies this
      ensures executed == old(executed) + [query]
      ensures err == execResult(query)
    {
      executed := executed + [query];
      err := execResult(query);
    }
  }

  // ---------------------------------------------------------------------------
  // Version and user

  const VersionQuery := "SELECT version FROM V$INSTANCE"
  const UserQuery := "select user from dual"
  const VersionPrefix := "Oracle "

  /**
   * The server version: the scanned version behind "Oracle " on success; on
   * failure the scanned value and the error exactly as the query left them.
   */
  function V(db: DB): (r: Scan)
    ensures var q := db.queryRow(VersionQuery);
            if q.err.None? then r.err.None? && |r.value| == |VersionPrefix| + |q.value|
                                && r.value[..|VersionPrefix|] == VersionPrefix
                                && r.value[|VersionPrefix|..] == q.value
            else r == q
  {
    var q := db.queryRow(VersionQuery);
    if q.err.Some? then q else Scan(VersionPrefix + q.value, None)
  }

  /** The current user: what the user query scanned, its error included. */
  function U(db: DB): (r: Scan)
    ensures r == db.queryRow(UserQuery)
  {
    db.queryRow(UserQuery)
  }

  // ---------------------------------------------------------------------------
  // Password change

  const AlterUser := "alter user "
  const IdentifiedBy := " IDENTIFIED BY "

  /**
   * The statement that changes the password of `user` to `newPassword`: the
   * user name and the new password are pasted into the text unquoted.
   */
  function ChangePasswordStatement(user: string, newPassword: string): (s: string)
    ensures |s| == |AlterUser| + |user| + |IdentifiedBy| + |newPassword|
    ensures s[..|AlterUser|] == AlterUser
    ensures s[|AlterUser|..|AlterUser| + |user|] == user
    ensures s[|AlterUser| + |user|..|s| - |newPassword|] == IdentifiedBy
    ensures s[|s| - |newPassword|..] == newPassword
  {
    AlterUser + user + IdentifiedBy + newPassword
  }

  /**
   * `ChPw`: executes exactly one statement, the password change, and returns
   * its error; the old password plays no part.
   */
  method ChPw(db: DB, user: string, newPassword: string, oldPassword: string) returns (err: Option<Error>)
    modifies db
    ensures db.executed == old(db.executed) + [ChangePasswordStatement(user, newPassword)]
    ensures err == db.execResult(ChangePasswordStatement(user, newPassword))
  {
    err := db.Exec(AlterUser + user + IdentifiedBy + newPassword);
  }

  // ---------------------------------------------------------------------------
  // Error decoding

  const Marker := "ORA-"

  /** The code of an error with a `Code()` method: "ORA-" and the code as `%05d`. */
  function FormatCode(c: int): (s: string)
    ensures |s| >= |Marker| + 5 && s[..|Marker|] == Marker
  {
    Marker + Pad05(c)
  }

  /** A code of up to five digits gives "ORA-" and exactly five digits. */
  lemma FormatCodeWidth(c: int)
    requires 0 <= c < 100000
    ensures |FormatCode(c)| == 9 && All(FormatCode(c)[|Marker|..], IsDigit)
  {
    Pad05Width(c);
    assert FormatCode(c)[|Marker|..] == Pad05(c);
  }

  /** The digits after "ORA-" read back as the code: no two codes are formatted alike. */
  lemma FormatCodeRoundTrip(c: int)
    ensures var s := FormatCode(c)[|Marker|..];
            |s| > 0 && (if s[0] == '-' then All(s[1..], IsDigit) else All(s, IsDigit))
            && ParseSigned(s) == c
  {
    assert FormatCode(c)[|Marker|..] == Pad05(c);
    Pad05RoundTrip(c);
  }

  lemma FormatCodeExample()
    ensures FormatCode(1017) == "ORA-01017"
  {
    DecimalExample();
    assert Zeros(1) == "0";
    assert Pad05(1017) == "0" + "1017";
  }

  lemma DecimalExample()
    ensures Decimal(1017) == "1017"
  {
    assert Decimal(10) == [DigitChar(1)] + [DigitChar(0)];
    assert Decimal(101) == Decimal(10) + [DigitChar(1)];
    assert Decimal(1017) == Decimal(101) + [DigitChar(7)];
  }

  /** The code taken from the structured accessor, or "" when the error has none. */
  function StructuredCode(err: Error): (code: string)
    ensures code == "" <==> err.code.None?
  {
    if err.code.Some? then FormatCode(err.code.value) else ""
  }

  /**
   * What `E` returns: a (code, message) pair, or the run-time panic that the
   * slice at line 52 raises when its bounds are out of order or out of range.
   */
  datatype Decoded = Decoded(code: string, message: string) | SlicePanic

  /**
   * The outcome of `E`, in positions of the original text: `i` is the last
   * "ORA-", `i + j` the first ':' after it. Without a structured code the
   * code is the slice `[i..j]` of the text after that ':', as line 52 has it.
   */
  function DecodeError(err: Error): (r: Decoded)
  {
    var i := LastIndex(err.text, Marker);
    if i == -1 then Decoded(StructuredCode(err), TrimSpace(err.text))
    else
      var j := IndexChar(err.text[i..], ':');
      if j == -1 then Decoded(StructuredCode(err), TrimSpace(err.text[i..]))
      else DecodeAfterColon(err, i, j)
  }

  /** The outcome of `E` once the last "ORA-" is at `i` and the first ':' after it at `i + j`. */
  function DecodeAfterColon(err: Error, i: nat, j: nat): (r: Decoded)
    requires i + j < |err.text|
  {
    var rest := err.text[i + j + 1..];
    var message := TrimSpace(rest);
    if err.code.Some? then Decoded(FormatCode(err.code.value), message)
    else if i <= j <= |rest| then Decoded(rest[i..j], message)
    else SlicePanic
  }

  /** `E`: decodes an error step by step, reassigning its code and message. */
  method E(err: Error) returns (r: Decoded)
    ensures r == DecodeError(err)
  {
    var code, msg := "", err.text;
    if err.code.Some? {
      code := FormatCode(err.code.value);
    }
    assert code == StructuredCode(err);
    var i := LastIndex(msg, Marker);
    if i != -1 {
      msg := msg[i..];
      var j := IndexChar(msg, ':');
      if j != -1 {
        msg := msg[j + 1..];
        ColonBranch(err, i, j);
        SuffixOfSuffix(err.text, i, j + 1);
        AfterColonCases(err, i, j, code, msg);
        if code == "" {
          if !(i <= j <= |msg|) {
            return SlicePanic;
          }
          code := msg[i..j];
        }
      } else {
        NoColonBranch(err, i);
      }
    }
    return Decoded(code, TrimSpace(msg));
  }

  lemma NoColonBranch(err: Error, i: int)
    requires i == LastIndex(err.text, Marker) && i != -1 && IndexChar(err.text[i..], ':') == -1
    ensures DecodeError(err) == Decoded(StructuredCode(err), TrimSpace(err.text[i..]))
  {
  }

  lemma ColonBranch(err: Error, i: int, j: int)
    requires i == LastIndex(err.text, Marker) && i != -1
    requires j == IndexChar(err.text[i..], ':') && j != -1
    ensures i + j < |err.text| && DecodeError(err) == DecodeAfterColon(err, i, j)
  {
  }

  lemma AfterColonCases(err: Error, i: nat, j: nat, code: string, msg: string)
    requires i + j < |err.text|
    requires code == StructuredCode(err) && msg == err.text[i + j + 1..]
    ensures code != "" ==> DecodeAfterColon(err, i, j) == Decoded(code, TrimSpace(msg))
    ensures code == "" && i <= j <= |msg| ==> DecodeAfterColon(err, i, j) == Decoded(msg[i..j], TrimSpace(msg))
    ensures code == "" && !(i <= j <= |msg|) ==> DecodeAfterColon(err, i, j) == SlicePanic
  {
  }

  /** `i` is where the last "ORA-" of `text` starts. */
  predicate IsLastMarker(text: string, i: int) {
    OccursAt(text, Marker, i) && forall k :: i < k < |text| ==> !OccursAt(text, Marker, k)
  }

  /** `c` is the first ':' at or after position `i`. */
  predicate IsFirstColonFrom(text: string, i: int, c: int) {
    0 <= i <= c < |text| && text[c] == ':' && forall k :: i <= k < c ==> text[k] != ':'
  }

  lemma LastMarkerIsLastIndex(text: string, i: int)
    requires IsLastMarker(text, i)
    ensures LastIndex(text, Marker) == i
  {
  }

  lemma {:induction false} FirstColonIsIndex(text: string, i: int, c: int)
    requires IsFirstColonFrom(text, i, c)
    ensures IndexChar(text[i..], ':') == c - i
  {
    var t := text[i..];
    assert t[c - i] == ':';
    assert forall k :: 0 <= k < c - i ==> t[k] == text[i + k];
  }

  lemma {:induction false} NoColonIsNoIndex(text: string, i: int)
    requires 0 <= i <= |text|
    requires forall k :: i <= k < |text| ==> text[k] != ':'
    ensures IndexChar(text[i..], ':') == -1
  {
    var t := text[i..];
    assert forall k :: 0 <= k < |t| ==> t[k] == text[i + k];
  }

  /** With a structured code the code is "ORA-" and `%05d` of it, and `E` never panics. */
  lemma DecodeStructuredCode(err: Error, c: int)
    requires err.code == Some(c)
    ensures DecodeError(err).Decoded?
    ensures DecodeError(err).code == FormatCode(c)
  {
  }

  /** No "ORA-" in the text: the message is the whole text, trimmed. */
  lemma DecodeNoMarker(err: Error)
    requires forall k :: !OccursAt(err.text, Marker, k)
    ensures DecodeError(err) == Decoded(StructuredCode(err), TrimSpace(err.text))
  {
    assert LastIndex(err.text, Marker) == -1;
  }

  /** The last "ORA-" has no ':' after it: the message is the text from that "ORA-" on, trimmed. */
  lemma DecodeMarkerNoColon(err: Error, i: int)
    requires IsLastMarker(err.text, i)
    requires forall k :: i <= k < |err.text| ==> err.text[k] != ':'
    ensures DecodeError(err) == Decoded(StructuredCode(err), TrimSpace(err.text[i..]))
  {
    LastMarkerIsLastIndex(err.text, i);
    NoColonIsNoIndex(err.text, i);
  }

  /**
   * The last "ORA-" is at `i` and the first ':' after it at `c`: the message is
   * the trimmed text `rest` after that ':'. With a structured code nothing
   * panics; without one, line 52 takes `rest[i..c - i]` as the code, and
   * panics unless `i <= c - i <= |rest|`.
   */
  lemma DecodeMarkerColon(err: Error, i: int, c: int)
    requires IsLastMarker(err.text, i) && IsFirstColonFrom(err.text, i, c)
    ensures var rest := err.text[c + 1..];
            DecodeError(err) == (if err.code.Some? then Decoded(FormatCode(err.code.value), TrimSpace(rest))
                                 else if i <= c - i <= |rest| then Decoded(rest[i..c - i], TrimSpace(rest))
                                 else SlicePanic)
  {
    DecodeIsAfterColon(err, i, c);
  }

  lemma DecodeIsAfterColon(err: Error, i: int, c: int)
    requires IsLastMarker(err.text, i) && IsFirstColonFrom(err.text, i, c)
    ensures DecodeError(err) == DecodeAfterColon(err, i, c - i)
  {
    LastMarkerIsLastIndex(err.text, i);
    FirstColonIsIndex(err.text, i, c);
  }

  /** `s` contains no "ORA-": neither at its start nor anywhere after. */
  predicate NoMarker(s: string)
    decreases |s|
  {
    |s| < |Marker| || (s[..|Marker|] != Marker && NoMarker(s[1..]))
  }

  /** No ':' in the number, and no further "ORA-" after the marker. */
  predicate IsOraShape(num: string, msg: string) {
    ':' !in num && NoMarker(num + ":" + msg)
  }

  /** A text without "ORA-" has no position where "ORA-" occurs. */
  lemma {:induction false} NoMarkerNowhere(s: string, k: int)
    requires NoMarker(s) && 0 <= k
    ensures !OccursAt(s, Marker, k)
    decreases k
  {
    if k > 0 && |s| >= |Marker| {
      NoMarkerNowhere(s[1..], k - 1);
      if k + |Marker| <= |s| {
        SliceOfSuffix(s, 1, k - 1, k - 1 + |Marker|);
      }
    }
  }

  /** Text without a capital 'O' contains no "ORA-". */
  lemma {:induction false} NoCapitalONoMarker(s: string)
    requires 'O' !in s
    ensures NoMarker(s)
    decreases |s|
  {
    if |s| >= |Marker| {
      assert s[..|Marker|][0] == s[0];
      assert forall x :: x in s[1..] ==> x in s;
      NoCapitalONoMarker(s[1..]);
    }
  }

  /** A number without ':' or 'O', before a message without 'O', has the usual shape. */
  lemma OraShapeWithoutO(num: string, msg: string)
    requires ':' !in num && 'O' !in num && 'O' !in msg
    ensures IsOraShape(num, msg)
  {
    assert forall x :: x in num + ":" + msg ==> x in num || x == ':' || x in msg;
    NoCapitalONoMarker(num + ":" + msg);
  }

  lemma LongPrefixShape()
    ensures IsOraShape("00001", " unique")
  {
    OraShapeWithoutO("00001", " unique");
  }

  /**
   * Text of the usual shape `pre` "ORA-" `num` ":" `msg`, with no ':' in the
   * number and no "ORA-" after the marker: the message is `msg` trimmed.
   * Without a structured code, line 52 takes `msg[|pre|..4 + |num|]` as the
   * code, and panics when that range is out of order or out of range.
   */
  lemma DecodeOraText(pre: string, num: string, msg: string, code: Option<int>)
    requires IsOraShape(num, msg)
    ensures DecodeError(Error(pre + Marker + num + ":" + msg, code))
         == if code.Some? then Decoded(FormatCode(code.value), TrimSpace(msg))
            else if |pre| <= |Marker| + |num| <= |msg|
            then Decoded(msg[|pre|..|Marker| + |num|], TrimSpace(msg))
            else SlicePanic
  {
    OraTextShape(pre, num, msg);
    DecodeShapedText(pre, num, msg, code);
  }

  /** `DecodeMarkerColon` for such a text, once the marker and the colon are located. */
  lemma DecodeShapedText(pre: string, num: string, msg: string, code: Option<int>)
    requires var text := pre + Marker + num + ":" + msg;
             var c := |pre| + |Marker| + |num|;
             IsLastMarker(text, |pre|) && IsFirstColonFrom(text, |pre|, c) && text[c + 1..] == msg
    ensures DecodeError(Error(pre + Marker + num + ":" + msg, code))
         == if code.Some? then Decoded(FormatCode(code.value), TrimSpace(msg))
            else if |pre| <= |Marker| + |num| <= |msg|
            then Decoded(msg[|pre|..|Marker| + |num|], TrimSpace(msg))
            else SlicePanic
  {
    DecodeMarkerColon(Error(pre + Marker + num + ":" + msg, code), |pre|, |pre| + |Marker| + |num|);
  }

  /** Where the marker and the colon of such a text are, and what follows the colon. */
  lemma OraTextShape(pre: string, num: string, msg: string)
    requires IsOraShape(num, msg)
    ensures var text := pre + Marker + num + ":" + msg;
            var c := |pre| + |Marker| + |num|;
            IsLastMarker(text, |pre|) && IsFirstColonFrom(text, |pre|, c) && text[c + 1..] == msg
  {
    var text := pre + Marker + num + ":" + msg;
    OraTextMarker(pre, num, msg);
    OraTextColon(pre, num, msg);
    assert text[|pre| + |Marker| + |num| + 1..] == msg;
  }

  lemma OraTextMarker(pre: string, num: string, msg: string)
    requires NoMarker(num + ":" + msg)
    ensures IsLastMarker(pre + Marker + num + ":" + msg, |pre|)
  {
    var head := pre + Marker;
    var tail := num + ":" + msg;
    var text := pre + Marker + num + ":" + msg;
    assert text == head + tail;
    assert text[|pre|..|pre| + |Marker|] == Marker;
    forall k | |pre| < k < |head| ensures !OccursAt(text, Marker, k) {
      assert text[k] == Marker[k - |pre|];
      if k + |Marker| <= |text| {
        assert text[k..k + |Marker|][0] == text[k];
      }
    }
    forall k | |head| <= k < |text| ensures !OccursAt(text, Marker, k) {
      NoMarkerNowhere(tail, k - |head|);
      if k + |Marker| <= |text| {
        assert text[k..k + |Marker|] == tail[k - |head|..k - |head| + |Marker|];
      }
    }
  }

  lemma OraTextColon(pre: string, num: string, msg: string)
    requires ':' !in num
    ensures IsFirstColonFrom(pre + Marker + num + ":" + msg, |pre|, |pre| + |Marker| + |num|)
  {
    var head := pre + Marker;
    var text := pre + Marker + num + ":" + msg;
    assert text == head + num + (":" + msg);
    forall k | |pre| <= k < |head| + |num| ensures text[k] != ':' {
      if k < |head| {
        assert text[k] == Marker[k - |pre|];
      } else {
        assert text[k] == num[k - |head|];
      }
    }
  }

  /** The usual text of a unique-key violation, without a structured code. */
  lemma DecodeUniqueViolationText()
    ensures DecodeError(Error("...ORA-00001: unique constraint violated", None))
         == Decoded("ique c", "unique constraint violated")
  {
    var body := "un" + "ique c" + "onstraint violated";
    var msg := " " + body;
    UniqueViolationPieces(body, msg);
    DecodeOraText("...", "00001", msg, None);
    SliceAfter(" ", body, 2, 8);
    MiddleOfConcat("un", "ique c", "onstraint violated");
    assert msg[3..9] == "ique c";
    assert msg[1..] == body;
    assert TrimSpace(msg) == TrimSpace(body);
    assert !IsSpace(body[0]) && !IsSpace(body[|body| - 1]);
    assert TrimSpace(body) == body;
    assert DecodeError(Error("...ORA-00001: unique constraint violated", None)) == Decoded(msg[3..9], TrimSpace(msg));
  }

  lemma UniqueViolationPieces(body: string, msg: string)
    requires body == "un" + "ique c" + "onstraint violated" && msg == " " + body
    ensures body == "unique constraint violated"
    ensures "..." + Marker + "00001" + ":" + msg == "...ORA-00001: unique constraint violated"
    ensures IsOraShape("00001", msg)
  {
    UniqueViolationBody(body);
    assert msg == " unique constraint violated";
    UniqueViolationText();
    UniqueViolationNoMarker();
  }

  lemma UniqueViolationBody(body: string)
    requires body == "un" + "ique c" + "onstraint violated"
    ensures body == "unique constraint violated"
  {
  }

  lemma UniqueViolationText()
    ensures "..." + Marker + "00001" + ":" + " unique constraint violated" == "...ORA-00001: unique constraint violated"
  {
  }

  lemma UniqueViolationNoMarker()
    ensures IsOraShape("00001", " unique constraint violated")
  {
    OraShapeWithoutO("00001", " unique constraint violated");
  }

  lemma SuffixOfSuffix(s: string, a: int, b: int)
    requires 0 <= a <= |s| && 0 <= b <= |s| - a
    ensures s[a..][b..] == s[a + b..]
  {
  }

  lemma SliceOfSuffix(s: string, a: int, b: int, e: int)
    requires 0 <= a <= |s| && 0 <= b <= e <= |s| - a
    ensures s[a..][b..e] == s[a + b..a + e]
  {
  }

  lemma SliceAfter(a: string, b: string, x: int, y: int)
    requires 0 <= x <= y <= |b|
    ensures (a + b)[|a| + x..|a| + y] == b[x..y]
  {
  }

  lemma MiddleOfConcat(a: string, b: string, c: string)
    ensures (a + b + c)[|a|..|a| + |b|] == b
  {
  }

  /** Invalid credentials, with the structured code 1017. */
  lemma DecodeInvalidCredentials()
    ensures DecodeError(Error("ORA-01017: invalid username/password; logon denied", Some(1017))).code
         == "ORA-01017"
  {
    DecodeStructuredCode(Error("ORA-01017: invalid username/password; logon denied", Some(1017)), 1017);
    FormatCodeExample();
  }

  /** A prefix before the last "ORA-" that is longer than its code makes line 52 panic. */
  lemma DecodePanicsOnLongPrefix()
    ensures DecodeError(Error("ociStmtExecute: ORA-00001: unique", None)) == SlicePanic
  {
    LongPrefixText();
    LongPrefixShape();
    DecodeOraText("ociStmtExecute: ", "00001", " unique", None);
  }

  lemma LongPrefixText()
    ensures "ociStmtExecute: " + Marker + "00001" + ":" + " unique" == "ociStmtExecute: ORA-00001: unique"
  {
  }

  // ---------------------------------------------------------------------------
  // Password errors

  /** `PwErr`: the error has a `Code()` method and it returns 1017. */
  function PwErr(err: Error): (b: bool)
    ensures b <==> err.code == Some(1017)
  {
    match err.code
    case Some(c) => c == 1017
    case None => false
  }

  /**
   * Whenever `E` does not panic, `PwErr` holds exactly when `E` decodes the
   * code "ORA-01017": without a structured code, the text line 52 slices out
   * lies after the last "ORA-", so it cannot be "ORA-01017".
   */
  lemma PwErrIsDecodedCode(err: Error)
    requires DecodeError(err).Decoded?
    ensures PwErr(err) <==> DecodeError(err).code == "ORA-01017"
  {
    if err.code.Some? {
      var c := err.code.value;
      DecodeStructuredCode(err, c);
      FormatCodeExample();
      if DecodeError(err).code == "ORA-01017" {
        FormatCodeRoundTrip(c);
        FormatCodeRoundTrip(1017);
      }
    } else {
      UnstructuredCodeIsNotInvalidCredentials(err);
    }
  }

  /** Without a structured code, `E` never yields the code "ORA-01017". */
  lemma UnstructuredCodeIsNotInvalidCredentials(err: Error)
    requires err.code.None? && DecodeError(err).Decoded?
    ensures DecodeError(err).code != "ORA-01017"
  {
    var i := LastIndex(err.text, Marker);
    if i != -1 {
      var j := IndexChar(err.text[i..], ':');
      if j != -1 {
        ColonBranch(err, i, j);
        AfterColonCases(err, i, j, "", err.text[i + j + 1..]);
        if i <= j <= |err.text| - (i + j + 1) {
          SliceAfterLastMarker(err.text, i, j);
        }
      }
    }
  }

  /** A slice lying after the last "ORA-" is not "ORA-01017". */
  lemma SliceAfterLastMarker(text: string, i: int, j: int)
    requires 0 <= i <= j && i + j + 1 + j <= |text|
    requires forall k :: i < k ==> !OccursAt(text, Marker, k)
    ensures text[i + j + 1..][i..j] != "ORA-01017"
  {
    var p := i + j + 1 + i;
    SliceOfSuffix(text, i + j + 1, i, j);
    var code := text[p..i + j + 1 + j];
    InvalidCredentialsCode();
    PrefixOfConcat(Marker, "01017");
    assert !OccursAt(text, Marker, p);
    if |code| >= |Marker| {
      assert text[p..p + |Marker|] == code[..|Marker|];
    }
  }

  lemma InvalidCredentialsCode()
    ensures "ORA-01017" == Marker + "01017"
  {
  }

  lemma PrefixOfConcat(a: string, b: string)
    ensures (a + b)[..|a|] == a
  {
  }

  // ---------------------------------------------------------------------------
  // Column names

  /** `allCapsRE`, `^[A-Z][A-Z0-9_]+$`: a capital, then one or more capitals, digits or underscores. */
  predicate AllCaps(name: string) {
    |name| >= 2 && IsUpper(name[0])
    && forall k :: 1 <= k < |name| ==> IsUpper(name[k]) || IsDigit(name[k]) || name[k] == '_'
  }

  /** One column name as `Cols` leaves it. */
  function NormalizeName(name: string): string {
    if AllCaps(name) then ToLower(name) else name
  }

  /** The column names as `Cols` leaves them, one by one. */
  function NormalizeColumns(names: seq<string>): (r: seq<string>)
    ensures |r| == |names|
    ensures forall k :: 0 <= k < |names| ==> r[k] == NormalizeName(names[k])
  {
    if names == [] then [] else [NormalizeName(names[0])] + NormalizeColumns(names[1..])
  }

  /** The result set handed to `Cols`: what its `Columns()` method returns. */
  datatype Rows = Rows(columns: Result<seq<string>, Error>)

  /**
   * `Cols`: a failure of `Columns()` is passed on unchanged; otherwise every
   * name is overwritten in place by its normal form.
   */
  method Cols(rows: Rows) returns (r: Result<seq<string>, Error>)
    ensures rows.columns.Failure? ==> r == Failure(rows.columns.error)
    ensures rows.columns.Success? ==> r == Success(NormalizeColumns(rows.columns.value))
  {
    if rows.columns.Failure? {
      return Failure(rows.columns.error);
    }
    var names := rows.columns.value;
    var cols := new string[|names|](k requires 0 <= k < |names| => names[k]);
    for i := 0 to cols.Length
      invariant forall k :: 0 <= k < i ==> cols[k] == NormalizeName(names[k])
      invariant forall k :: i <= k < cols.Length ==> cols[k] == names[k]
    {
      var name := cols[i];
      if AllCaps(name) {
        cols[i] := ToLower(name);
      }
      assert cols[i] == NormalizeName(names[i]);
    }
    PointwiseNormalized(cols[..], names);
    return Success(cols[..]);
  }

  /** A sequence that agrees with `NormalizeName` at every index is `NormalizeColumns`. */
  lemma PointwiseNormalized(s: seq<string>, names: seq<string>)
    requires |s| == |names|
    requires forall k :: 0 <= k < |s| ==> s[k] == NormalizeName(names[k])
    ensures s == NormalizeColumns(names)
  {
  }

  /** An all-caps name stops being all-caps once lower-cased. */
  lemma LoweredIsNotAllCaps(name: string)
    requires AllCaps(name)
    ensures !AllCaps(ToLower(name)) && ToLower(name) != name
  {
    assert ToLower(name)[0] == LowerChar(name[0]);
  }

  /**
   * Position `k` of the result is changed exactly when the name there is
   * all-caps, and then it is that name lower-cased.
   */
  lemma NormalizeColumnsAt(names: seq<string>, k: int)
    requires 0 <= k < |names|
    ensures NormalizeColumns(names)[k] != names[k] <==> AllCaps(names[k])
    ensures AllCaps(names[k]) ==> NormalizeColumns(names)[k] == ToLower(names[k])
  {
    if AllCaps(names[k]) { LoweredIsNotAllCaps(names[k]); }
  }

  /** Normalising twice is normalising once. */
  lemma NormalizeColumnsIdempotent(names: seq<string>)
    ensures NormalizeColumns(NormalizeColumns(names)) == NormalizeColumns(names)
  {
    var once := NormalizeColumns(names);
    forall k | 0 <= k < |names| ensures NormalizeName(once[k]) == once[k] {
      if AllCaps(names[k]) { LoweredIsNotAllCaps(names[k]); }
    }
  }

  lemma NormalizeNameExamples()
    ensures NormalizeName("USER_ID") == "user_id"
    ensures NormalizeName("UserId") == "UserId"
    ensures NormalizeName("1X") == "1X"
    ensures NormalizeName("X") == "X"
  {
    assert AllCaps("USER_ID");
    assert !AllCaps("UserId") by { assert !IsUpper("UserId"[1]); }
  }

  // ---------------------------------------------------------------------------
  // Statement preparation

  /** The characters `\s` stands for in Go's regular expressions: \t, \n, \f, \r and space. */
  predicate IsRegexSpace(c: char) {
    c == ' ' || c == '\t' || c == '\n' || c == '\U{000C}' || c == '\r'
  }

  /** `u` is in the language of `;?\s*`: an optional ';', then white space only. */
  predicate IsTerminatorTail(u: string) {
    All(u, IsRegexSpace) || (|u| > 0 && u[0] == ';' && All(u[1..], IsRegexSpace))
  }

  /**
   * `endRE.ReplaceAllString(s, "")` with `endRE` = `;?\s*$`: the trailing white
   * space goes, then one ';' if it is last; white space before it stays.
   */
  function StripTerminator(s: string): (r: string)
    ensures |r| <= |s| && r == s[..|r|]
  {
    var t := TrimRightWhile(s, IsRegexSpace);
    if |t| > 0 && t[|t| - 1] == ';' then t[..|t| - 1] else t
  }

  /**
   * The text removed is the match `endRE` finds: the suffix matches `;?\s*`
   * and no suffix starting further left does, so it is the longest such.
   */
  lemma StripTerminatorLeftmostMatch(s: string)
    ensures var r := StripTerminator(s);
            IsTerminatorTail(s[|r|..]) && forall p :: 0 <= p < |r| ==> !IsTerminatorTail(s[p..])
  {
    var t := TrimRightWhile(s, IsRegexSpace);
    var r := StripTerminator(s);
    if |t| > 0 && t[|t| - 1] == ';' {
      assert s[|r|..][1..] == s[|t|..];
      forall p | 0 <= p < |r| ensures !IsTerminatorTail(s[p..]) {
        assert s[p..][|t| - 1 - p] == ';';
      }
    } else {
      forall p | 0 <= p < |r| ensures !IsTerminatorTail(s[p..]) {
        assert s[p..][|t| - 1 - p] == t[|t| - 1];
      }
    }
  }

  /** At most one ';' is removed, and only as the first character removed. */
  lemma StripTerminatorOneSemicolon(s: string)
    ensures var r := StripTerminator(s);
            forall k :: |r| <= k < |s| && s[k] == ';' ==> k == |r|
  {
    var r := StripTerminator(s);
    StripTerminatorLeftmostMatch(s);
    forall k | |r| <= k < |s| && s[k] == ';' ensures k == |r| {
      assert s[|r|..][k - |r|] == ';';
    }
  }

  /** Text that ends neither in ';' nor in white space is left alone. */
  lemma StripTerminatorUnchanged(s: string)
    requires s == [] || (s[|s| - 1] != ';' && !IsRegexSpace(s[|s| - 1]))
    ensures StripTerminator(s) == s
  {
  }

  lemma StripTerminatorExamples()
    ensures StripTerminator("SELECT 1 ;  ") == "SELECT 1 "
    ensures StripTerminator("a;;") == "a;"
  {
    var s := "SELECT 1 ;  ";
    assert s[..11][..10] == "SELECT 1 ;";
    assert TrimRightWhile(s, IsRegexSpace) == "SELECT 1 ;";
    assert "a;;"[..2] == "a;";
  }

  /** What `P` returns: the statement type, the statement text, whether it is a query, and the error. */
  datatype Prepared = Prepared(typ: string, sql: string, isQuery: bool, err: Option<Error>)

  /**
   * `P`: strips the terminator and classifies the stripped text with
   * `QueryExecType`, passed here as `queryExecType`; the error is always nil.
   */
  function P(queryExecType: (string, string) -> (string, bool), prefix: string, sqlstr: string): (r: Prepared)
    ensures r.err == None
    ensures r.sql == StripTerminator(sqlstr)
    ensures (r.typ, r.isQuery) == queryExecType(prefix, r.sql)
  {
    var sql := StripTerminator(sqlstr);
    var (typ, q) := queryExecType(prefix, sql);
    Prepared(typ, sql, q, None)
  }
}

/**
 * Translation of backend error strings into the Chinese messages shown in
 * the admin dashboard (admin/src/utils/errorMessages.ts). The input is
 * lower-cased and searched for the keys of two ordered tables, the table
 * of error codes first; the first key found decides the message.
 */
module ErrorMessages {
  import opened Wrappers
  import opened Strings

  type Entry = (string, string)

  const UnknownError := "未知错误"
  const GenericFailure := "操作失败，请重试"
  const PasswordKey := "password should be at least"
  const PasswordPrefix := "密码长度至少"
  const PasswordSuffix := "位"

  /** Error codes and their messages, in declaration order. */
  const CodeTable: seq<Entry> := [
    ("invalid_credentials", "邮箱或密码错误"),
    ("email_not_confirmed", "邮箱未验证，请先验证邮箱"),
    ("email_address_not_authorized", "邮箱地址未授权"),
    ("signup_disabled", "注册功能已禁用"),
    ("email_rate_limit_exceeded", "邮件发送过于频繁，请稍后再试"),
    ("too_many_requests", "请求过于频繁，请稍后再试"),
    ("invalid_request", "请求无效"),
    ("invalid_token", "令牌无效或已过期"),
    ("token_expired", "令牌已过期"),
    ("session_not_found", "会话不存在"),
    ("user_not_found", "用户不存在"),
    ("user_already_registered", "该邮箱已被注册"),
    ("weak_password", "密码强度不够，请使用更复杂的密码"),
    ("password_too_short", "密码长度不够")
  ]

  /** Message phrases and their messages, in declaration order. */
  const MessageTable: seq<Entry> := [
    ("invalid login credentials", "邮箱或密码错误"),
    ("invalid credentials", "邮箱或密码错误"),
    ("email not confirmed", "邮箱未验证，请先验证邮箱"),
    ("email already registered", "该邮箱已被注册"),
    (PasswordKey, PasswordPrefix),
    ("too many requests", "请求过于频繁，请稍后再试"),
    ("session not found", "会话不存在或已过期"),
    ("user not found", "用户不存在"),
    ("invalid token", "令牌无效或已过期"),
    ("token expired", "令牌已过期")
  ]

  /** Every message either table can return is non-empty. */
  predicate MessagesNonEmpty(table: seq<Entry>) {
    forall i :: 0 <= i < |table| ==> table[i].1 != ""
  }

  lemma TablesHaveMessages()
    ensures MessagesNonEmpty(CodeTable) && MessagesNonEmpty(MessageTable)
  {
  }

  /** The first entry, from index `k` on, whose key occurs in `text`. */
  function FirstHit(table: seq<Entry>, text: string, k: nat): (r: Option<nat>)
    requires k <= |table|
    ensures r.Some? ==> k <= r.value < |table| && Contains(text, table[r.value].0)
    ensures r.Some? ==> forall j :: k <= j < r.value ==> !Contains(text, table[j].0)
    ensures r.None? ==> forall j :: k <= j < |table| ==> !Contains(text, table[j].0)
    decreases |table| - k
  {
    if k == |table| then None
    else if Contains(text, table[k].0) then Some(k)
    else FirstHit(table, text, k + 1)
  }

  /**
   * `error.replace(/^.*?: /, '')`: everything up to and including the first
   * ": " is removed, unless a line terminator stands before it (the
   * regular-expression `.` does not match one, so then nothing matches).
   */
  function StripDetail(e: string): (r: string)
    ensures IndexOf(e, ": ", 0).None? ==> r == e
    ensures IndexOf(e, ": ", 0).Some? ==>
      var p := IndexOf(e, ": ", 0).value;
      r == if exists j :: 0 <= j < p && IsLineTerminator(e[j]) then e else e[p + 2..]
  {
    match IndexOf(e, ": ", 0)
    case None => e
    case Some(p) =>
      if exists j :: 0 <= j < p && IsLineTerminator(e[j]) then e else e[p + 2..]
  }

  /** The message for a hit in the phrase table at index `j`. */
  function PhraseMessage(e: string, j: nat): (r: string)
    requires j < |MessageTable|
    ensures r != []
    ensures MessageTable[j].0 != PasswordKey ==> r == MessageTable[j].1
    ensures MessageTable[j].0 == PasswordKey ==> PasswordPrefix <= r
  {
    TablesHaveMessages();
    if MessageTable[j].0 == PasswordKey && FirstDigitRun(e).Some? then
      PasswordPrefix + FirstDigitRun(e).value + PasswordSuffix
    else
      MessageTable[j].1
  }

  /** The fallback when no key matched: the error without its prefix, trimmed. */
  function FallbackMessage(e: string): (r: string)
    ensures r != ""
  {
    var t := Trim(StripDetail(e));
    if t == "" then GenericFailure else t
  }

  /** `translateError(error)`; `None` stands for `null` and `undefined`. */
  function TranslateError(error: Option<string>): (r: string)
    ensures r != ""
    ensures error.None? || error == Some("") ==> r == UnknownError
  {
    TablesHaveMessages();
    if error.None? || error.value == "" then UnknownError
    else
      var e := error.value;
      var lower := ToLower(e);
      match FirstHit(CodeTable, lower, 0)
      case Some(i) => CodeTable[i].1
      case None =>
        match FirstHit(MessageTable, lower, 0)
        case Some(j) => PhraseMessage(e, j)
        case None => FallbackMessage(e)
  }

  // -----------------------------------------------------------------------
  // What the translation promises

  /**
   * A key of the code table found in the lower-cased input decides the
   * result when no earlier code key is found, whatever phrases the input
   * also contains.
   */
  lemma CodeKeyDecides(e: string, i: nat)
    requires e != "" && i < |CodeTable|
    requires Contains(ToLower(e), CodeTable[i].0)
    requires forall k :: 0 <= k < i ==> !Contains(ToLower(e), CodeTable[k].0)
    ensures TranslateError(Some(e)) == CodeTable[i].1
  {
    var hit := FirstHit(CodeTable, ToLower(e), 0);
    assert hit.Some? && hit.value == i;
  }

  /** Whenever some code key is found, the result is a message of the code table. */
  lemma {:induction false} CodeTableFirst(e: string)
    requires e != ""
    requires exists i :: 0 <= i < |CodeTable| && Contains(ToLower(e), CodeTable[i].0)
    ensures exists i :: 0 <= i < |CodeTable| && TranslateError(Some(e)) == CodeTable[i].1
  {
    var hit := FirstHit(CodeTable, ToLower(e), 0);
    assert hit.Some?;
    assert TranslateError(Some(e)) == CodeTable[hit.value].1;
  }

  /**
   * With no code key found, the first phrase found in declaration order
   * decides; for any phrase but the password one, its fixed message is the
   * result.
   */
  lemma PhraseDecides(e: string, j: nat)
    requires e != "" && j < |MessageTable|
    requires forall k :: 0 <= k < |CodeTable| ==> !Contains(ToLower(e), CodeTable[k].0)
    requires Contains(ToLower(e), MessageTable[j].0)
    requires forall k :: 0 <= k < j ==> !Contains(ToLower(e), MessageTable[k].0)
    ensures MessageTable[j].0 != PasswordKey ==> TranslateError(Some(e)) == MessageTable[j].1
  {
    var hit := FirstHit(MessageTable, ToLower(e), 0);
    assert hit.Some? && hit.value == j;
  }

  /**
   * When the password phrase decides, the result names the first run of
   * digits of the original input, or is the bare prefix when there is none.
   */
  lemma PasswordLength(e: string)
    requires e != ""
    requires forall k :: 0 <= k < |CodeTable| ==> !Contains(ToLower(e), CodeTable[k].0)
    requires Contains(ToLower(e), PasswordKey)
    requires forall k :: 0 <= k < 4 ==> !Contains(ToLower(e), MessageTable[k].0)
    ensures FirstDigitRun(e).Some? ==>
      TranslateError(Some(e)) == PasswordPrefix + FirstDigitRun(e).value + PasswordSuffix
    ensures FirstDigitRun(e).None? ==> TranslateError(Some(e)) == PasswordPrefix
  {
    assert MessageTable[4].0 == PasswordKey;
    var hit := FirstHit(MessageTable, ToLower(e), 0);
    assert hit.Some? && hit.value == 4;
  }

  /**
   * With no key of either table found, the result is the input with its
   * prefix up to the first ": " removed and trimmed, or the generic
   * failure message when that leaves nothing.
   */
  lemma NoKeyFallsBack(e: string)
    requires e != ""
    requires forall k :: 0 <= k < |CodeTable| ==> !Contains(ToLower(e), CodeTable[k].0)
    requires forall k :: 0 <= k < |MessageTable| ==> !Contains(ToLower(e), MessageTable[k].0)
    ensures TranslateError(Some(e)) == (if Trim(StripDetail(e)) == "" then GenericFailure else Trim(StripDetail(e)))
  {
  }
}

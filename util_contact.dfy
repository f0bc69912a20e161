/**
 * `parseConversationSIDFromContactHeader` of lib/util/index.js: the text that
 * the regular expression `/<sip:(.*)@(.*)$/` captures in its first group.
 */
module ContactHeader {
  import opened Wrappers

  /** The characters a JavaScript `.` does not match. */
  predicate IsLineTerminator(ch: char)
  {
    ch == '\n' || ch == '\r' || ch == '\U{2028}' || ch == '\U{2029}'
  }

  const SipOpen: string := "<sip:"

  /** `"<sip:"` occurs at `i`. */
  predicate OpensAt(s: string, i: int)
  {
    0 <= i && i + |SipOpen| <= |s| && s[i..i + |SipOpen|] == SipOpen
  }

  /**
   * The regular expression matches at `i` with its `'@'` at `j`: `"<sip:"`
   * starts at `i`, the `'@'` comes after it, and no line terminator occurs
   * from `i` to the end of the input (neither `.*` crosses one, and `$`
   * without the multiline flag is the end of the input).
   */
  ghost predicate MatchAt(s: string, i: int, j: int)
  {
    OpensAt(s, i) && i + |SipOpen| <= j < |s| && s[j] == '@'
    && forall k :: i <= k < |s| ==> !IsLineTerminator(s[k])
  }

  /** Where the last line starts: just after the last line terminator, or 0. */
  function LastLineStart(s: string): (r: nat)
    ensures r <= |s|
    ensures forall k :: r <= k < |s| ==> !IsLineTerminator(s[k])
    ensures r > 0 ==> IsLineTerminator(s[r - 1])
  {
    if s == [] then 0
    else if IsLineTerminator(s[|s| - 1]) then |s|
    else LastLineStart(s[..|s| - 1])
  }

  /** The first occurrence of `"<sip:"` at or after `from`. */
  function FindOpen(s: string, from: nat): (r: Option<nat>)
    requires from <= |s|
    ensures r.Some? ==> from <= r.value && OpensAt(s, r.value)
    ensures r.Some? ==> forall k :: from <= k < r.value ==> !OpensAt(s, k)
    ensures r.None? ==> forall k :: from <= k ==> !OpensAt(s, k)
    decreases |s| - from
  {
    if from + |SipOpen| > |s| then None
    else if s[from..from + |SipOpen|] == SipOpen then Some(from)
    else FindOpen(s, from + 1)
  }

  /** The last `'@'` in `s`. */
  function LastAt(s: string): (r: Option<nat>)
    ensures r.Some? ==> r.value < |s| && s[r.value] == '@' && forall k :: r.value < k < |s| ==> s[k] != '@'
    ensures r.None? ==> '@' !in s
  {
    if s == [] then None
    else if s[|s| - 1] == '@' then Some(|s| - 1)
    else LastAt(s[..|s| - 1])
  }

  /** `parseConversationSIDFromContactHeader(contactHeader)`: the first group, or null. */
  function ParseConversationSid(contactHeader: string): (r: Option<string>)
    ensures r.Some? ==> |SipOpen| + |r.value| + 1 <= |contactHeader|
    ensures r.Some? ==> forall k :: 0 <= k < |r.value| ==> !IsLineTerminator(r.value[k])
  {
    var line := LastLineStart(contactHeader);
    match FindOpen(contactHeader, line)
    case None => None
    case Some(i) =>
      match LastAt(contactHeader)
      case None => None
      case Some(j) => if j < i + |SipOpen| then None else Some(contactHeader[i + |SipOpen|..j])
  }

  /**
   * The parse agrees with the regular expression: it fails exactly when
   * there is no match, and otherwise returns the group of the leftmost match,
   * whose greedy `(.*)` runs to the last `'@'`.
   */
  lemma ParseIsLeftmostGreedyMatch(s: string)
    ensures ParseConversationSid(s).None? <==> forall i, j :: !MatchAt(s, i, j)
    ensures ParseConversationSid(s).Some? ==>
      exists i, j :: MatchAt(s, i, j) && ParseConversationSid(s).value == s[i + |SipOpen|..j]
        && forall i', j' :: MatchAt(s, i', j') ==> i <= i' && (i' == i ==> j' <= j)
  {
    var line := LastLineStart(s);
    forall i, j | MatchAt(s, i, j) ensures line <= i {
    }
    match FindOpen(s, line)
    case None =>
    case Some(i) =>
      match LastAt(s)
      case None =>
        forall i', j' | MatchAt(s, i', j') ensures false {
        }
      case Some(j) =>
        if j >= i + |SipOpen| {
          assert MatchAt(s, i, j);
        } else {
          forall i', j' | MatchAt(s, i', j') ensures false {
          }
        }
  }
}

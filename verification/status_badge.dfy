/**
 * Status badges (StatusBadge, AutoStatusBadge): a badge shows its status
 * text unchanged in one of five variants; the automatic badge picks the
 * variant by keyword tests on the lower-cased status, tried in the order
 * success, warning, error, info.
 */
module StatusBadge {
  import opened JsValues
  import opened Text

  datatype Variant = Default | Success | Warning | Error | Info

  const SuccessWords: seq<string> := ["active", "approved", "ok", "success", "paid"]
  const WarningWords: seq<string> := ["warning", "pending", "low"]
  const ErrorWords: seq<string> := ["critical", "error", "expired", "overused", "depleted"]
  const InfoWords: seq<string> := ["info", "notice"]

  /** Some keyword of the list occurs in the text. */
  predicate MentionsAny(text: string, words: seq<string>)
  {
    exists i :: 0 <= i < |words| && Includes(text, words[i])
  }

  /** Each list's membership test is the disjunction of its keywords. */
  lemma KeywordLists(t: string)
    ensures MentionsAny(t, SuccessWords) <==> Includes(t, "active") || Includes(t, "approved") || Includes(t, "ok") ||
                                              Includes(t, "success") || Includes(t, "paid")
    ensures MentionsAny(t, WarningWords) <==> Includes(t, "warning") || Includes(t, "pending") || Includes(t, "low")
    ensures MentionsAny(t, ErrorWords) <==> Includes(t, "critical") || Includes(t, "error") || Includes(t, "expired") ||
                                            Includes(t, "overused") || Includes(t, "depleted")
    ensures MentionsAny(t, InfoWords) <==> Includes(t, "info") || Includes(t, "notice")
  {
    assert SuccessWords[0] == "active" && SuccessWords[1] == "approved" && SuccessWords[2] == "ok";
    assert SuccessWords[3] == "success" && SuccessWords[4] == "paid";
    assert WarningWords[0] == "warning" && WarningWords[1] == "pending" && WarningWords[2] == "low";
    assert ErrorWords[0] == "critical" && ErrorWords[1] == "error" && ErrorWords[2] == "expired";
    assert ErrorWords[3] == "overused" && ErrorWords[4] == "depleted";
    assert InfoWords[0] == "info" && InfoWords[1] == "notice";
  }

  /** A rendered badge: the text shown and its variant. */
  datatype Badge = Badge(text: string, variant: Variant)

  /** `StatusBadge`: the variant defaults to `default`. */
  function StatusBadge(status: string, variant: Option<Variant>): (b: Badge)
    ensures b.text == status
    ensures b.variant == (if variant.Some? then variant.value else Default)
  {
    Badge(status, if variant.Some? then variant.value else Default)
  }

  /** The variant `AutoStatusBadge` picks: the first category one of whose keywords occurs. */
  function AutoVariant(status: string): (v: Variant)
    ensures v == Success <==> MentionsAny(Lower(status), SuccessWords)
    ensures v == Warning <==> !MentionsAny(Lower(status), SuccessWords) && MentionsAny(Lower(status), WarningWords)
    ensures v == Error <==> !MentionsAny(Lower(status), SuccessWords) && !MentionsAny(Lower(status), WarningWords) &&
                            MentionsAny(Lower(status), ErrorWords)
    ensures v == Info <==> !MentionsAny(Lower(status), SuccessWords) && !MentionsAny(Lower(status), WarningWords) &&
                           !MentionsAny(Lower(status), ErrorWords) && MentionsAny(Lower(status), InfoWords)
    ensures v == Default <==> !MentionsAny(Lower(status), SuccessWords) && !MentionsAny(Lower(status), WarningWords) &&
                              !MentionsAny(Lower(status), ErrorWords) && !MentionsAny(Lower(status), InfoWords)
  {
    var s := Lower(status);
    KeywordLists(s);
    if Includes(s, "active") || Includes(s, "approved") || Includes(s, "ok") ||
       Includes(s, "success") || Includes(s, "paid") then Success
    else if Includes(s, "warning") || Includes(s, "pending") || Includes(s, "low") then Warning
    else if Includes(s, "critical") || Includes(s, "error") || Includes(s, "expired") ||
            Includes(s, "overused") || Includes(s, "depleted") then Error
    else if Includes(s, "info") || Includes(s, "notice") then Info
    else Default
  }

  /** `AutoStatusBadge`: the status text is shown as given. */
  function AutoStatusBadge(status: string): (b: Badge)
    ensures b.text == status && b.variant == AutoVariant(status)
  {
    StatusBadge(status, Some(AutoVariant(status)))
  }

  /** Only the lower-cased status matters. */
  lemma AutoVariantIgnoresCase(a: string, b: string)
    requires Lower(a) == Lower(b)
    ensures AutoVariant(a) == AutoVariant(b)
  {
  }

  /** Substring tests make "Inactive" and "Unpaid" count as success. */
  lemma SubstringSurprises()
    ensures AutoVariant("Inactive") == Success
    ensures AutoVariant("Unpaid") == Success
  {
    assert Lower("Inactive") == "in" + "active" + "";
    IncludesStretch("in", "active", "");
    assert Lower("Unpaid") == "un" + "paid" + "";
    IncludesStretch("un", "paid", "");
  }

  /** A success keyword wins over a later category's keyword in the same text. */
  lemma SuccessWinsOverError(prefix: string, middle: string, suffix: string)
    ensures AutoVariant(prefix + "approved" + middle + "error" + suffix) == Success
  {
    var s := prefix + "approved" + middle + "error" + suffix;
    LowerConcat(prefix, "approved" + middle + "error" + suffix);
    LowerConcat("approved", middle + "error" + suffix);
    assert Lower("approved") == "approved";
    assert Lower(s) == Lower(prefix) + "approved" + Lower(middle + "error" + suffix);
    IncludesStretch(Lower(prefix), "approved", Lower(middle + "error" + suffix));
  }

  /** Balance statuses of the leave report: "OK" is success, a low balance a warning. */
  lemma GoodStandingVariant()
    ensures AutoVariant("OK") == Success
  {
    assert Lower("OK") == "" + "ok" + "";
    IncludesStretch("", "ok", "");
  }

  /**
   * "LOW" followed by text without c, p or k in either case is a warning;
   * the seeded low-balance status "LOW - Less than 3 days" is one.
   */
  lemma LowBalanceVariant(tail: string)
    requires 'c' !in tail && 'C' !in tail && 'p' !in tail && 'P' !in tail && 'k' !in tail && 'K' !in tail
    ensures AutoVariant("LOW" + tail) == Warning
  {
    var lower := Lower("LOW" + tail);
    LowerConcat("LOW", tail);
    assert Lower("LOW") == "low";
    assert lower == "" + "low" + Lower(tail);
    IncludesStretch("", "low", Lower(tail));
    assert "LOW"[0] == 'L';
    LowerLacks("LOW" + tail, 'c');
    LowerLacks("LOW" + tail, 'p');
    LowerLacks("LOW" + tail, 'k');
    WarningByKeyword("LOW" + tail, lower, "low");
  }

  /** A lower-case letter absent from a text in both cases is absent from its lower case. */
  lemma LowerLacks(s: string, c: char)
    requires 'a' <= c <= 'z'
    requires c !in s && (c as int - 32) as char !in s
    ensures c !in Lower(s)
  {
    forall i | 0 <= i < |s|
      ensures Lower(s)[i] != c
    {
      assert s[i] in s;
    }
  }

  /** A status whose lower case lacks 'c', 'p' and 'k' and holds a warning keyword is a warning. */
  lemma WarningByKeyword(status: string, lower: string, word: string)
    requires Lower(status) == lower && 'c' !in lower && 'p' !in lower && 'k' !in lower
    requires word in WarningWords && Includes(lower, word)
    ensures AutoVariant(status) == Warning
  {
    NoSuccessWord(lower);
  }

  /** Text without 'c', 'p' and 'k' holds no success keyword. */
  lemma NoSuccessWord(s: string)
    requires 'c' !in s && 'p' !in s && 'k' !in s
    ensures !MentionsAny(s, SuccessWords)
  {
    MissingCharExcludes(s, "active", 'c');
    MissingCharExcludes(s, "approved", 'p');
    MissingCharExcludes(s, "ok", 'k');
    MissingCharExcludes(s, "success", 'c');
    MissingCharExcludes(s, "paid", 'p');
  }

  /** Text none of whose keywords occur gets the default variant, e.g. the empty status. */
  lemma EmptyStatusIsDefault()
    ensures AutoVariant("") == Default
  {
  }
}

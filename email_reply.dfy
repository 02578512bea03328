/** `_parse_email_response` (app/services/agent_service.py:701-713): a
    keyword classifier over the lower-cased body of a reply. */
module EmailReply {

  const ConfirmationWords: seq<string> := ["yes", "confirm", "accept", "agree", "sounds good"]
  const RejectionWords: seq<string> := ["no", "decline", "reject", "can't", "cannot"]
  const RescheduleWords: seq<string> := ["reschedule", "different time", "another time"]

  predicate IsUpper(c: char) { 'A' <= c <= 'Z' }

  /** ASCII lower-casing of one character. */
  function LowerChar(c: char): (r: char)
    ensures !IsUpper(r)
    ensures !IsUpper(c) ==> r == c
    ensures IsUpper(c) ==> r as int == c as int + 32
  {
    if IsUpper(c) then (c as int + 32) as char else c
  }

  /** `str.lower()` on ASCII text. */
  function Lower(s: string): (r: string)
    ensures |r| == |s|
    ensures forall i :: 0 <= i < |s| ==> r[i] == LowerChar(s[i]) && !IsUpper(r[i])
  {
    seq(|s|, i requires 0 <= i < |s| => LowerChar(s[i]))
  }

  /** `word` occurs in `text` at position `i`. */
  ghost predicate OccursAt(text: string, word: string, i: int) {
    0 <= i && i + |word| <= |text| && text[i..i + |word|] == word
  }

  /** Python's `word in text`, scanning from the front. */
  predicate Contains(text: string, word: string) {
    (|word| <= |text| && text[..|word|] == word) || (text != [] && Contains(text[1..], word))
  }

  lemma {:induction false} ContainsIffOccurs(text: string, word: string)
    ensures Contains(text, word) <==> exists i :: OccursAt(text, word, i)
  {
    if |word| <= |text| && text[..|word|] == word {
      assert OccursAt(text, word, 0);
    } else if text != [] {
      ContainsIffOccurs(text[1..], word);
      if Contains(text[1..], word) {
        var i :| OccursAt(text[1..], word, i);
        assert text[1..][i..i + |word|] == text[i + 1..i + 1 + |word|];
        assert OccursAt(text, word, i + 1);
      }
      if i :| OccursAt(text, word, i) {
        assert i != 0;
        assert text[1..][i - 1..i - 1 + |word|] == text[i..i + |word|];
        assert OccursAt(text[1..], word, i - 1);
      }
    }
  }

  /** A word whose first letter never appears in the text does not occur in it. */
  lemma {:induction false} FirstLetterAbsent(text: string, word: string)
    requires |word| > 0 && word[0] !in text
    ensures !Contains(text, word)
  {
    if text != [] {
      assert text[0] != word[0];
      assert word[0] !in text[1..] by {
        assert forall c :: c in text[1..] ==> c in text;
      }
      FirstLetterAbsent(text[1..], word);
    }
  }

  /** Python's `any(word in text for word in words)`. */
  predicate MentionsAny(text: string, words: seq<string>) {
    exists k :: 0 <= k < |words| && Contains(text, words[k])
  }

  /** Lines 701-713: the first keyword group that matches decides the label. */
  function ParseEmailResponse(emailBody: string): (kind: string)
    ensures kind in {"confirmation", "rejection", "reschedule_request", "unclear"}
    ensures kind == "confirmation" <==> MentionsAny(Lower(emailBody), ConfirmationWords)
    ensures kind == "rejection" <==>
      !MentionsAny(Lower(emailBody), ConfirmationWords) && MentionsAny(Lower(emailBody), RejectionWords)
    ensures kind == "reschedule_request" <==>
      && !MentionsAny(Lower(emailBody), ConfirmationWords)
      && !MentionsAny(Lower(emailBody), RejectionWords)
      && MentionsAny(Lower(emailBody), RescheduleWords)
  {
    var bodyLower := Lower(emailBody);
    if MentionsAny(bodyLower, ConfirmationWords) then "confirmation"
    else if MentionsAny(bodyLower, RejectionWords) then "rejection"
    else if MentionsAny(bodyLower, RescheduleWords) then "reschedule_request"
    else "unclear"
  }

  lemma {:induction false} LowerIdempotent(s: string)
    ensures Lower(Lower(s)) == Lower(s)
  {
    forall i | 0 <= i < |s|
      ensures Lower(Lower(s))[i] == Lower(s)[i]
    {
      assert !IsUpper(Lower(s)[i]);
    }
  }

  /** Classifying an already lower-cased body gives the same label. */
  lemma CaseDoesNotMatter(emailBody: string)
    ensures ParseEmailResponse(Lower(emailBody)) == ParseEmailResponse(emailBody)
  {
    LowerIdempotent(emailBody);
  }

  /** Matching is by substring: "know" contains "no", so it reads as a rejection. */
  lemma KnowIsRejection()
    ensures ParseEmailResponse("I know") == "rejection"
  {
    var text := Lower("I know");
    assert text == "i know";
    assert OccursAt(text, "no", 3);
    ContainsIffOccurs(text, "no");
    assert Contains(text, RejectionWords[0]);
    forall k | 0 <= k < |ConfirmationWords|
      ensures !Contains(text, ConfirmationWords[k])
    {
      assert ConfirmationWords[k][0] in "ycas";
      FirstLetterAbsent(text, ConfirmationWords[k]);
    }
  }

  /** Confirmation words take precedence over rejection words. */
  lemma ConfirmationWins(emailBody: string)
    requires Contains(Lower(emailBody), "sounds good") && Contains(Lower(emailBody), "can't")
    ensures ParseEmailResponse(emailBody) == "confirmation"
  {
    assert Contains(Lower(emailBody), ConfirmationWords[4]);
  }
}

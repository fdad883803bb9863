/**
  Which transcript the recognition handler acts on, and whether it addresses the
  assistant: the user's profile must exist and the lower-cased transcript must contain
  the lower-cased assistant name.
 */
module WakeWord {
  import opened Options
  import Text

  /** The part of the signed-in user's profile the controller reads. */
  datatype Profile = Profile(name: string, assistantName: string)

  /**
    The transcript of the first alternative of the last recognition result, trimmed.
    `results[k][j]` is the transcript of alternative `j` of result `k`. An empty result
    list, or a last result without alternatives, makes the handler throw before it
    changes anything, which is `None` here.
   */
  function HeardTranscript(results: seq<seq<string>>): (r: Option<string>)
    ensures r.Some? <==> results != [] && results[|results| - 1] != []
    ensures r.Some? ==> r.value == [] || (!Text.IsSpace(r.value[0]) && !Text.IsSpace(r.value[|r.value| - 1]))
    ensures r.Some? ==> |r.value| <= |results[|results| - 1][0]|
    ensures r.Some? ==> var a := results[|results| - 1][0];
      exists lo :: 0 <= lo <= |a| - |r.value| && a[lo..lo + |r.value|] == r.value
                   && Text.AllSpace(a[..lo]) && Text.AllSpace(a[lo + |r.value|..])
  {
    if results == [] || results[|results| - 1] == [] then None
    else Some(Text.Trim(results[|results| - 1][0]))
  }

  /** Only the last result counts: whatever came before it is ignored. */
  lemma LastResultWins(earlier: seq<seq<string>>, last: seq<string>)
    ensures HeardTranscript(earlier + [last]) == HeardTranscript([last])
  {
    assert (earlier + [last])[|earlier + [last]| - 1] == last;
  }

  /**
    The wake-word test of the recognition handler: it needs a profile, and the name
    can only be found in a transcript at least as long as the name.
   */
  predicate IsAddressed(profile: Option<Profile>, transcript: string)
    ensures IsAddressed(profile, transcript) ==>
      profile.Some? && |profile.value.assistantName| <= |transcript|
    ensures profile.Some? && profile.value.assistantName == [] ==> IsAddressed(profile, transcript)
  {
    profile.Some? && Text.Contains(Text.Lower(transcript), Text.Lower(profile.value.assistantName))
  }

  /**
    The test passes exactly when a profile exists and the lower-cased assistant name
    occurs somewhere in the lower-cased transcript.
   */
  lemma AddressedIff(profile: Option<Profile>, transcript: string)
    ensures IsAddressed(profile, transcript) <==>
      profile.Some? && Text.Occurs(Text.Lower(transcript), Text.Lower(profile.value.assistantName))
  {
    if profile.Some? {
      var lt, ln := Text.Lower(transcript), Text.Lower(profile.value.assistantName);
      Text.ContainsIffOccurs(lt, ln);
    }
  }

  /** Saying the assistant's name, in any mix of upper and lower case, anywhere in the phrase wakes it. */
  lemma {:induction false} NameInPhraseIsHeard(p: Profile, before: string, spoken: string, after: string)
    requires Text.Lower(spoken) == Text.Lower(p.assistantName)
    ensures IsAddressed(Some(p), before + spoken + after)
  {
    var lt := Text.Lower(before + spoken + after);
    var ln := Text.Lower(p.assistantName);
    Text.LowerAppend(before + spoken, after);
    Text.LowerAppend(before, spoken);
    assert lt == Text.Lower(before) + ln + Text.Lower(after);
    assert lt[|before|..|before| + |ln|] == ln;
    assert Text.OccursAt(lt, ln, |before|);
    Text.ContainsIffOccurs(lt, ln);
  }

  /** An empty assistant name is contained in every transcript. */
  lemma EmptyNameWakesOnEverything(p: Profile, transcript: string)
    requires p.assistantName == []
    ensures IsAddressed(Some(p), transcript)
  {
  }

  /** Without a profile nothing is ever addressed to the assistant. */
  lemma NoProfileNoWake(transcript: string)
    ensures !IsAddressed(None, transcript)
  {
  }
}

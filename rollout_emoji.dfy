/** The emoji shown for a rollout state (src/utils/getRolloutEmoji.ts). */
module RolloutEmojis {
  import opened Wrappers
  import opened Types

  const OFF_EMOJI: string := "\U{2B55}"
  const PARTIAL_EMOJI: string := "\U{1F7E0}"
  const FULL_EMOJI: string := "\U{1F7E2}"

  /** `getRolloutEmoji(rolloutState)`: a hollow red circle for `'0%'`, an orange circle for
      `'partial'`, a green circle for `'100%'`; any other value throws. The argument is typed as a
      state but nothing checks it at run time, so the model takes any text. */
  function GetRolloutEmoji(rolloutState: string): (r: Result<string, string>)
    ensures r.Ok? <==> ParseRolloutState(rolloutState).Some?
    ensures r.Ok? ==> |r.value| == 1
    ensures r.Err? ==> r.error == "Unknown rollout state: " + rolloutState
  {
    if rolloutState == "0%" then Ok(OFF_EMOJI)
    else if rolloutState == "partial" then Ok(PARTIAL_EMOJI)
    else if rolloutState == "100%" then Ok(FULL_EMOJI)
    else Err("Unknown rollout state: " + rolloutState)
  }

  /** Each state's emoji. */
  lemma EmojiOfEachState()
    ensures GetRolloutEmoji(RolloutText(Off)) == Ok(OFF_EMOJI)
    ensures GetRolloutEmoji(RolloutText(Partial)) == Ok(PARTIAL_EMOJI)
    ensures GetRolloutEmoji(RolloutText(Full)) == Ok(FULL_EMOJI)
  {
  }

  /** Different states show different emoji, so the emoji names the state. */
  lemma EmojiIsInjective(a: RolloutState, b: RolloutState)
    ensures GetRolloutEmoji(RolloutText(a)).Ok?
    ensures GetRolloutEmoji(RolloutText(a)) == GetRolloutEmoji(RolloutText(b)) ==> a == b
  {
    assert OFF_EMOJI[0] != PARTIAL_EMOJI[0] && PARTIAL_EMOJI[0] != FULL_EMOJI[0] && FULL_EMOJI[0] != OFF_EMOJI[0];
  }
}

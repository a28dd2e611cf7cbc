/** What the policy can decide about a rendition (media/policy/decide.py). */
module PlaybackPolicy {

  datatype PlaybackMode = Direct | DirectWithAudioTranscode | Remux | FallbackSourcePreferred | Unsupported
}

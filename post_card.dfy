/** The post card: the content excerpt and the avatar fallback letter. */
module PostCard {
  import opened Common
  import opened Strings

  const ExcerptLength: nat := 150

  /** `content.substring(0, 150) + (content.length > 150 ? '...' : '')`. */
  function Excerpt(content: string): (r: string)
    ensures |content| <= ExcerptLength ==> r == content
    ensures |content| > ExcerptLength ==> r == content[..ExcerptLength] + "..."
    ensures |r| <= ExcerptLength + 3
    ensures var n := if |content| <= ExcerptLength then |content| else ExcerptLength;
            |r| >= n && r[..n] == content[..n]
  {
    Prefix(content, ExcerptLength) + (if |content| > ExcerptLength then "..." else "")
  }

  /** An unchanged excerpt does not mean the content was short: 150 characters followed by
      `...` come back as they were. */
  lemma LongContentCanLookUntouched(content: string)
    requires |content| == ExcerptLength + 3 && content[ExcerptLength..] == "..."
    ensures Excerpt(content) == content
  {
    assert content == content[..ExcerptLength] + content[ExcerptLength..];
  }

  /** `author?.name?.charAt(0).toUpperCase() || 'A'`: a missing or empty name gives `A`. */
  function AvatarInitial(name: Option<string>): (r: string)
    ensures |r| == 1
    ensures name.Some? && name.value != "" ==> r == [UpperChar(name.value[0])]
    ensures name.None? || name.value == "" ==> r == "A"
  {
    if name.Some? && name.value != "" then [UpperChar(name.value[0])] else "A"
  }

  /** A name starting with a lower-case letter shows that letter in upper case. */
  lemma InitialIsUpperCase(name: string)
    requires name != "" && 'a' <= name[0] <= 'z'
    ensures 'A' <= AvatarInitial(Some(name))[0] <= 'Z'
  {
  }
}

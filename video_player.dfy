/** The video player (client/src/components/VideoPlayer.jsx): which URLs are
    played in a YouTube frame, and how a watch or short link becomes an embed
    link. */
module VideoPlayer {
  import opened JsStrings

  /** Line 6: the URL mentions either YouTube host. */
  predicate IsYouTube(url: string) {
    Contains(url, "youtube.com") || Contains(url, "youtu.be")
  }

  /** `getEmbedUrl`: a watch link has its first `watch?v=` replaced by
      `embed/`; otherwise a short link has its first `youtu.be/` replaced by
      `youtube.com/embed/`; anything else is kept. */
  function EmbedUrl(url: string): (r: string)
    ensures Contains(url, "youtube.com/watch") ==> r == ReplaceFirst(url, "watch?v=", "embed/")
    ensures !Contains(url, "youtube.com/watch") && Contains(url, "youtu.be") ==>
              r == ReplaceFirst(url, "youtu.be/", "youtube.com/embed/")
    ensures !Contains(url, "youtube.com/watch") && !Contains(url, "youtu.be") ==> r == url
  {
    if Contains(url, "youtube.com/watch") then ReplaceFirst(url, "watch?v=", "embed/")
    else if Contains(url, "youtu.be") then ReplaceFirst(url, "youtu.be/", "youtube.com/embed/")
    else url
  }

  /** A URL that is not a YouTube one is played as it is. */
  lemma NotYouTubeUnchanged(url: string)
    requires !IsYouTube(url)
    ensures EmbedUrl(url) == url
  {
    if Contains(url, "youtube.com/watch") {
      assert "youtube.com" + "/watch" == "youtube.com/watch";
      ContainsPrefixOf(url, "youtube.com", "/watch");
    }
  }

  /** Every watch link is a YouTube URL: the frame is used for it. */
  lemma WatchIsYouTube(url: string)
    requires Contains(url, "youtube.com/watch")
    ensures IsYouTube(url)
  {
    assert "youtube.com" + "/watch" == "youtube.com/watch";
    ContainsPrefixOf(url, "youtube.com", "/watch");
  }

  /** A watch link whose video parameter follows `watch?v=` gets `embed/` in
      its place and keeps everything around it. */
  lemma WatchBecomesEmbed(url: string)
    requires Contains(url, "youtube.com/watch") && Contains(url, "watch?v=")
    ensures var i := IndexOf(url, "watch?v=").value;
            EmbedUrl(url) == url[..i] + "embed/" + url[i + 8..]
  {
    ReplaceFirstSpec(url, "watch?v=", "embed/");
  }

  /** A short link gets the embed path in place of its host, everything else
      kept. */
  lemma ShortLinkBecomesEmbed(url: string)
    requires !Contains(url, "youtube.com/watch") && Contains(url, "youtu.be/")
    ensures var i := IndexOf(url, "youtu.be/").value;
            EmbedUrl(url) == url[..i] + "youtube.com/embed/" + url[i + 9..]
  {
    assert "youtu.be" + "/" == "youtu.be/";
    ContainsPrefixOf(url, "youtu.be", "/");
    ReplaceFirstSpec(url, "youtu.be/", "youtube.com/embed/");
  }
}

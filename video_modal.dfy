/** The video player overlay of the widget: `playVideo`, `closeVideoModal`
    and the document's Escape listener. */
module VideoModal {
  import ChatWidget

  /** `API_BASE_URL` */
  const ApiBaseUrl := "http://localhost:5000/api"

  /** The address `playVideo` gives the `<source>`: the server's video route
      keyed by file name. */
  function VideoUrl(filename: string): (url: string)
    ensures |url| == |ApiBaseUrl + "/video/"| + |filename|
    ensures url[..|ApiBaseUrl + "/video/"|] == ApiBaseUrl + "/video/"
    ensures url[|ApiBaseUrl + "/video/"|..] == filename
  {
    ApiBaseUrl + "/video/" + filename
  }

  /** Different file names give different addresses, so each thumbnail
      opens its own video. */
  lemma VideoUrlInjective(a: string, b: string)
    requires VideoUrl(a) == VideoUrl(b)
    ensures a == b
  {
    assert a == VideoUrl(a)[|ApiBaseUrl + "/video/"|..];
  }

  class Player {
    /** `videoModal` has the `active` class. */
    var active: bool
    /** `videoSource.src` */
    var source: string
    /** `videoModalTitle.textContent` */
    var title: string
    /** The name and size lines of `videoInfo`. */
    var infoName: string
    var infoSize: string
    /** `videoPlayer.paused` and `videoPlayer.currentTime` (in seconds). */
    var paused: bool
    var position: real
    /** `document.body.style.overflow` */
    var bodyOverflow: string

    constructor ()
      ensures !active && paused && position == 0.0
    {
      active := false;
      source := "";
      title := "";
      infoName := "";
      infoSize := "";
      paused := true;
      position := 0.0;
      bodyOverflow := "";
    }

    /** `playVideo(filename, displayName, fileSize)`: the source is set and
        reloaded (a reload starts at position 0), the title and details are
        filled in, the overlay is shown and the page stops scrolling. The
        autoplay attempt may be refused by the browser, which is tolerated. */
    method PlayVideo(filename: string, displayName: string, fileSize: string, autoplayAllowed: bool)
      modifies this
      ensures active && source == VideoUrl(filename) && title == displayName
      ensures infoName == displayName && infoSize == fileSize
      ensures bodyOverflow == "hidden" && paused == !autoplayAllowed && position == 0.0
    {
      source := VideoUrl(filename);
      position := 0.0;
      paused := true;
      title := displayName;
      infoName := displayName;
      infoSize := fileSize;
      active := true;
      bodyOverflow := "hidden";
      if autoplayAllowed {
        paused := false;
      }
    }

    /** A click on a thumbnail plays that thumbnail's file. */
    method OpenThumbnail(t: ChatWidget.Thumbnail, autoplayAllowed: bool)
      modifies this
      ensures active && source == VideoUrl(t.filename) && title == t.displayName && infoSize == t.sizeText
      ensures infoName == t.displayName && bodyOverflow == "hidden" && paused == !autoplayAllowed && position == 0.0
    {
      PlayVideo(t.filename, t.displayName, t.sizeText, autoplayAllowed);
    }

    /** `closeVideoModal()`: paused, rewound, hidden, page scrolling again.
        The source, title and details stay as they were. */
    method CloseVideoModal()
      modifies this`paused, this`position, this`active, this`bodyOverflow
      ensures !active && paused && position == 0.0 && bodyOverflow == "auto"
    {
      paused := true;
      position := 0.0;
      active := false;
      bodyOverflow := "auto";
    }

    /** The document's keydown listener: Escape closes an open player and
        does nothing otherwise; other keys do nothing. */
    method OnKeyDown(key: string)
      modifies this`paused, this`position, this`active, this`bodyOverflow
      ensures key == "Escape" && old(active) ==> !active && paused && position == 0.0 && bodyOverflow == "auto"
      ensures !(key == "Escape" && old(active)) ==> unchanged(this)
    {
      if key == "Escape" {
        if active {
          CloseVideoModal();
        }
      }
    }
  }

  /** Closing twice, or pressing Escape after closing, changes nothing more
      than closing once. */
  method CloseThenEscape(p: Player)
    modifies p
    ensures !p.active && p.paused && p.position == 0.0 && p.bodyOverflow == "auto"
    ensures p.source == old(p.source) && p.title == old(p.title)
    ensures p.infoName == old(p.infoName) && p.infoSize == old(p.infoSize)
  {
    p.CloseVideoModal();
    ghost var closed := (p.active, p.paused, p.position, p.bodyOverflow, p.source);
    p.OnKeyDown("Escape");
    p.CloseVideoModal();
    assert (p.active, p.paused, p.position, p.bodyOverflow, p.source) == closed;
  }
}

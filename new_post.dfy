/** The new-post page: the form state, removing the chosen image, and the submit handler with
    its blank guard, the optional image upload, the create request and the reset. */
module NewPost {
  import opened Common
  import opened Strings
  import opened Paragraphs

  /** A chosen image file; its contents do not matter here. */
  datatype ImageFile = ImageFile(name: string)

  /** What the image upload gave: its `secure_url` (possibly missing), or a thrown error. */
  datatype UploadOutcome = Uploaded(secureUrl: Option<string>) | UploadFailed

  /** The body of `createPost`; `imageUrl` is omitted when it is `None`. */
  datatype CreateBody = CreateBody(title: string, content: string, imageUrl: Option<string>)

  /** `uploadedImageUrl || undefined`: an empty or missing URL is not sent. */
  function SentImageUrl(uploaded: Option<string>): (r: Option<string>)
    ensures r.None? <==> !Truthy(uploaded)
    ensures r.Some? ==> r == uploaded
  {
    if Truthy(uploaded) then uploaded else None
  }

  /** The body sent for the form's title and content and the uploaded URL. */
  function RequestFor(title: string, content: string, uploaded: Option<string>): (b: CreateBody)
    ensures b.title == title
    ensures b.content == Format(content)
    ensures b.imageUrl == SentImageUrl(uploaded)
  {
    CreateBody(title, Format(content), SentImageUrl(uploaded))
  }

  /** A submitted post always carries non-empty content: some line of it is non-blank. */
  lemma SubmittedContentNonEmpty(title: string, content: string, uploaded: Option<string>)
    requires !IsBlank(content)
    ensures RequestFor(title, content, uploaded).content != ""
  {
    FormatNonBlankIsNonEmpty(content);
  }

  class NewPostPage {
    var title: string
    var content: string
    var postImage: Option<ImageFile>
    var previewUrl: Option<string>

    constructor ()
      ensures title == "" && content == "" && postImage == None && previewUrl == None
    {
      title := "";
      content := "";
      postImage := None;
      previewUrl := None;
    }

    /** `removeImage`: both the chosen file and its preview are cleared. */
    method RemoveImage()
      modifies this`postImage, this`previewUrl
      ensures postImage == None && previewUrl == None
    {
      postImage := None;
      previewUrl := None;
    }

    /** `handleSubmit`. `upload` is the result of the upload, consulted only when an image is
        chosen; `createResolved` says whether `createPost` resolved without
        throwing, whatever the status of its reply. Returns the create request made,
        `None` when none is made. */
    method Submit(upload: UploadOutcome, createResolved: bool) returns (sent: Option<CreateBody>)
      modifies this
      ensures IsBlank(old(title)) || IsBlank(old(content)) ==> sent == None
      ensures !IsBlank(old(title)) && !IsBlank(old(content)) && old(postImage).None? ==>
        sent == Some(RequestFor(old(title), old(content), None))
      ensures !IsBlank(old(title)) && !IsBlank(old(content)) && old(postImage).Some? && upload.UploadFailed? ==>
        sent == None
      ensures !IsBlank(old(title)) && !IsBlank(old(content)) && old(postImage).Some? && upload.Uploaded? ==>
        sent == Some(RequestFor(old(title), old(content), upload.secureUrl))
      ensures sent.Some? && createResolved ==>
        title == "" && content == "" && postImage == None && previewUrl == None
      ensures sent.None? || !createResolved ==>
        title == old(title) && content == old(content)
        && postImage == old(postImage) && previewUrl == old(previewUrl)
    {
      // `!title.trim() || !content.trim()`, which is blankness by `TrimEmptyIffBlank`.
      if IsBlank(title) || IsBlank(content) {
        return None;
      }
      var uploadedImageUrl: Option<string> := Some("");
      if postImage.Some? {
        if upload.UploadFailed? {
          return None;
        }
        uploadedImageUrl := upload.secureUrl;
      }
      sent := Some(RequestFor(title, content, uploadedImageUrl));
      if createResolved {
        title := "";
        content := "";
        postImage := None;
        previewUrl := None;
      }
    }
  }
}

/** The edit page of a post: the permission check on load, the form it fills from the stored
    content, the field updates, and the request it sends on submit. */
module EditPost {
  import opened Common
  import opened Strings
  import opened Views
  import opened Paragraphs
  import opened PostController
  import PostPage

  /** The three inputs of the form; each input's id names one field. */
  datatype Form = Form(title: string, content: string, imageUrl: string)
  datatype Field = Title | Content | ImageUrl

  const PermissionDenied: string := "You don't have permission to edit this post."
  const LoadFailed: string := "Failed to load the post. It may have been removed or doesn't exist."

  /** `user && (user._id === data.author?._id || user.isAdmin)`. */
  predicate CanEdit(user: Option<User>, data: PostView) {
    user.Some? && (Some(user.value.id) == data.authorId || user.value.isAdmin)
  }

  /** The page decides exactly as the post page's Edit/Delete rule does. */
  lemma CanEditIsPostPageRule(user: Option<User>, data: PostView)
    ensures CanEdit(user, data) <==> PostPage.CanEditDelete(user, data)
  {
  }

  /** The form a permitted user starts from: the title, the stored content with its tags
      stripped, and the image URL or the empty string. */
  function FormFrom(data: PostView): (f: Form)
    ensures f.title == data.title
    ensures f.content == Strip(data.content)
    ensures data.imageUrl.None? ==> f.imageUrl == ""
    ensures data.imageUrl.Some? ==> f.imageUrl == data.imageUrl.value
  {
    Form(data.title, Strip(data.content), data.imageUrl.GetOr(""))
  }

  /** Content that was saved from plain, tag-free lines comes back into the form as those lines. */
  lemma EditRestoresText(data: PostView, text: string)
    requires text != [] && !IsSpace(text[0]) && !IsSpace(text[|text| - 1])
    requires forall line | line in Split(text, '\n') :: PlainLine(line)
    requires data.content == Format(text)
    ensures FormFrom(data).content == text
  {
    StripFormatRoundTrip(text);
  }

  class EditPostPage {
    var post: Option<PostView>
    var form: Form
    var error: Option<string>

    constructor ()
      ensures post == None && form == Form("", "", "") && error == None
    {
      post := None;
      form := Form("", "", "");
      error := None;
    }

    /** The load effect. It runs only for an authenticated visitor on a route with an id;
        `fetched` is the response of `fetchPostById`, `None` when the request threw. */
    method Load(isAuthenticated: bool, hasId: bool, user: Option<User>, fetched: Option<PostView>)
      modifies this
      ensures !isAuthenticated || !hasId ==> post == old(post) && form == old(form) && error == old(error)
      ensures isAuthenticated && hasId && fetched.None? ==>
        post == old(post) && form == old(form) && error == Some(LoadFailed)
      ensures isAuthenticated && hasId && fetched.Some? && CanEdit(user, fetched.value) ==>
        post == fetched && form == FormFrom(fetched.value) && error == None
      ensures isAuthenticated && hasId && fetched.Some? && !CanEdit(user, fetched.value) ==>
        post == fetched && form == old(form) && error == Some(PermissionDenied)
    {
      if !isAuthenticated || !hasId {
        return;
      }
      if fetched.None? {
        error := Some(LoadFailed);
        return;
      }
      var data := fetched.value;
      post := Some(data);
      if CanEdit(user, data) {
        form := FormFrom(data);
        error := None;
      } else {
        error := Some(PermissionDenied);
      }
    }

    /** `handleChange` (and the Clear button, which is a change of the image URL to `''`):
        the field named by the input's id takes the value, the others stay. */
    method Change(field: Field, value: string)
      modifies this`form
      ensures field == Title ==> form == old(form).(title := value)
      ensures field == Content ==> form == old(form).(content := value)
      ensures field == ImageUrl ==> form == old(form).(imageUrl := value)
    {
      match field
      case Title => form := form.(title := value);
      case Content => form := form.(content := value);
      case ImageUrl => form := form.(imageUrl := value);
    }

    /** `handleSubmit`: the body of the `updatePost` call, or `None` when no call is made. */
    function SubmitRequest(hasId: bool): (r: Option<UpdateBody>)
      reads this
      ensures r.Some? <==> hasId && post.Some? && !IsBlank(form.title) && !IsBlank(form.content)
      ensures r.Some? ==> r.value.title == Some(form.title) && r.value.content == Some(Format(form.content))
      ensures r.Some? ==> (r.value.imageUrl.None? <==> form.imageUrl == "")
      ensures r.Some? && form.imageUrl != "" ==> r.value.imageUrl == Some(form.imageUrl)
    {
      TrimEmptyIffBlank(form.title);
      TrimEmptyIffBlank(form.content);
      if !hasId || post.None? then None
      else if Trim(form.title) == "" || Trim(form.content) == "" then None
      else Some(UpdateBody(Some(form.title), Some(Format(form.content)), OrUndefined(form.imageUrl)))
    }
  }

  /** What the server stores from a submitted form: the form's title and formatted content,
      and its image URL unless that was cleared, in which case the stored image stays. */
  lemma SubmittedFormIsStored(f: Form, oldTitle: string, oldContent: string, oldImage: Option<string>)
    requires !IsBlank(f.title) && !IsBlank(f.content)
    ensures var body := UpdateBody(Some(f.title), Some(Format(f.content)), OrUndefined(f.imageUrl));
            && KeepUnlessTruthy(body.title, oldTitle) == f.title
            && KeepUnlessTruthy(body.content, oldContent) == Format(f.content)
            && (if Truthy(body.imageUrl) then body.imageUrl else oldImage)
               == (if f.imageUrl == "" then oldImage else Some(f.imageUrl))
  {
    assert f.title != "";
    FormatNonBlankIsNonEmpty(f.content);
  }
}

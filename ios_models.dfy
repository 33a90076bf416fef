/**
 * The networked client's value types: the user as the server sends it, with the name the
 * client shows for them, and the post as the timeline lists it.
 */
module IosModels {
  import opened Wrappers
  import opened Text
  import Serializers
  import ServerModels

  datatype User = User(id: int, email: string, nickname: Option<string>, totalPoints: int, createdAt: int)

  /** `String(format: "%04d", id)`: at least four characters, zero-padded; a negative id keeps
    * its minus sign inside the width. */
  function FormatId(id: int): (r: string)
    ensures id >= 0 ==> AllDigits(r) && DecimalValue(r) == id && |r| >= 4
    ensures id < 0 ==> |r| >= 4 && r[0] == '-' && AllDigits(r[1..]) && DecimalValue(r[1..]) == -id
  {
    if id >= 0 then ZeroPad(id, 4)
    else
      var d := ZeroPad(-id, 3);
      assert ("-" + d)[1..] == d;
      "-" + d
  }

  /** `displayNickname`: a nickname that is present and not empty, or else the sage prefix
    * followed by the padded id. */
  function DisplayNickname(u: User): (r: string)
    ensures u.nickname.Some? && u.nickname.value != [] ==> r == u.nickname.value
    ensures u.nickname.None? || u.nickname.value == [] ==>
      |r| >= 7 && r[..3] == Serializers.SagePrefix && r[3..] == FormatId(u.id)
  {
    if u.nickname.Some? && u.nickname.value != [] then u.nickname.value
    else
      var r := Serializers.SagePrefix + FormatId(u.id);
      assert r[3..] == FormatId(u.id);
      r
  }

  /** The fallback name is the one the server gives this user's replies, so a user without a
    * nickname sees themselves under the name others see on their replies. */
  lemma FallbackMatchesServer(u: User)
    requires u.nickname.None? || u.nickname.value == []
    requires u.id >= 0
    ensures DisplayNickname(u) == Serializers.ReplyNickname(u.id)
  {
  }

  /** Ids above 9999 keep all their digits: the width is a minimum. */
  lemma FallbackNeverTruncates(u: User)
    requires u.nickname.None? || u.nickname.value == []
    requires u.id >= 10000
    ensures |DisplayNickname(u)| >= 8
  {
    Serializers.ReplyNicknameLength(u.id);
  }

  /** The categories the client offers, with their raw values. */
  datatype PostCategory = Love | Work | School | Family | Friend | OtherCategory

  function RawValue(c: PostCategory): (r: string)
    ensures r in ServerModels.Categories
  {
    match c
    case Love => "love"
    case Work => "work"
    case School => "school"
    case Family => "family"
    case Friend => "friend"
    case OtherCategory => "other"
  }

  /** The client's categories are exactly the server's: every raw value is accepted, and every
    * accepted category has a case. */
  lemma CategoriesAgree(s: string)
    ensures s in ServerModels.Categories <==> exists c :: RawValue(c) == s
  {
    if s in ServerModels.Categories {
      var c := if s == "love" then Love else if s == "work" then Work else if s == "school" then School
        else if s == "family" then Family else if s == "friend" then Friend else OtherCategory;
      assert RawValue(c) == s;
    }
  }

  /** The post as the timeline lists it; `updatedAt` is not modelled. */
  datatype Post = Post(id: int, nickname: string, content: string, category: string, status: string,
                       sympathyCount: int, replyCount: int, isResolved: bool,
                       isMine: Option<bool>, hasSympathized: Option<bool>, createdAt: int)

  /** A page of posts and the page count from the pagination metadata. */
  datatype PostsResponse = PostsResponse(posts: seq<Post>, totalPages: int)
}

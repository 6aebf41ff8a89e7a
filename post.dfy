/**
 * The record `extractPostData` builds and `savedPosts` stores. JavaScript's
 * `null` is `None`; a timestamp is the instant in milliseconds (the stored
 * ISO string and `new Date(...)` read back to the same instant).
 */
module Post {
  import opened Wrappers

  /** One entry of `data.images`. */
  datatype ImageRef = ImageRef(url: string, alt: Option<string>, width: int, height: int)

  /** The `type` of an entry of `data.videos`. */
  datatype VideoKind = Direct | Facebook | FacebookData | FacebookId | YouTube | Vimeo | TikTok | Link

  /** One entry of `data.videos`; a duration is a number of seconds. */
  datatype VideoRef = VideoRef(url: string, poster: Option<string>, kind: VideoKind, duration: Option<real>)

  /** The values `data.postType` can take besides `null`. */
  datatype PostType = Video | FacebookVideo | ExternalVideo | VideoLink | Image | Text

  datatype PostRecord = PostRecord(
    url: string,
    timestamp: int,
    author: Option<string>,
    authorProfileUrl: Option<string>,
    caption: Option<string>,
    images: Option<seq<ImageRef>>,
    videos: Option<seq<VideoRef>>,
    likes: Option<string>,
    comments: Option<string>,
    shares: Option<string>,
    postType: Option<PostType>)

  /** The string a `VideoKind` is stored as. */
  function KindName(k: VideoKind): string {
    match k
    case Direct => "direct"
    case Facebook => "facebook"
    case FacebookData => "facebook-data"
    case FacebookId => "facebook-id"
    case YouTube => "youtube"
    case Vimeo => "vimeo"
    case TikTok => "tiktok"
    case Link => "link"
  }

  /** The string a `PostType` is stored as. */
  function PostTypeName(t: PostType): string {
    match t
    case Video => "video"
    case FacebookVideo => "facebook-video"
    case ExternalVideo => "external-video"
    case VideoLink => "video-link"
    case Image => "image"
    case Text => "text"
  }
}

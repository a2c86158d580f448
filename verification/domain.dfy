/** The records the service stores and the inbound post it receives. The flat
    package and the layered tree declare the same fields; they are defined once
    here. Timestamps are whole seconds since the Unix epoch. */
module Domain {
  import opened Results

  /** A filter's `type` string. `Unrecognized` stands for any stored value
      other than the three the enum generator declares. */
  datatype FilterType = Keywords | ExcludeKeywords | Author | Unrecognized

  /** A content rule attached to a channel. */
  datatype Filter = Filter(kind: FilterType, keywords: seq<string>, enabled: bool)

  /** A monitored channel. `id` is the decimal chat id; `username` the handle. */
  datatype Channel = Channel(
    id: string,
    username: string,
    title: string,
    addedBy: int,
    addedAt: int,
    filters: seq<Filter>,
    lastUpdate: int,
    isActive: bool)

  /** The attachment kinds; `Name` is the string stored and shown. The Go
      type is a plain string that decoding does not check, so a stored
      message may carry any other `type`; `OtherMedia` holds it verbatim. */
  datatype MediaType = Photo | Video | Document | Audio | OtherMedia(name: string) {
    function Name(): string {
      match this
      case Photo => "photo"
      case Video => "video"
      case Document => "document"
      case Audio => "audio"
      case OtherMedia(name) => name
    }
  }

  /** One attachment: a reference into the platform's file storage. */
  datatype Media = Media(kind: MediaType, fileId: string, url: string, thumbnail: string, caption: string)

  /** A stored post, keyed by `(channelId, id)`. */
  datatype Message = Message(
    id: int,
    channelId: string,
    channelName: string,
    text: string,
    date: int,
    author: string,
    media: seq<Media>,
    link: string)

  /** An authorization record. */
  datatype User = User(id: int, username: string, addedAt: int, isAdmin: bool)

  /** The sender fields of an inbound post that the service reads. */
  datatype Sender = Sender(username: string, firstName: string)

  /** The fields of an inbound platform post that the service reads.
      `photo` holds the file ids of the photo's sizes, smallest first. */
  datatype Post = Post(
    chatId: int,
    id: int,
    date: int,
    text: string,
    caption: string,
    from: Option<Sender>,
    photo: seq<string>,
    video: Option<string>,
    document: Option<string>,
    audio: Option<string>)
}

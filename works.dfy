/**
 * The records the portfolio gallery is built from: the backend's work
 * resources (`WorkResource`, with the `tags` array the processor reads) and
 * the projects and project images derived from them.
 */
module Works {
  import opened JsText

  datatype TagName = TagName(en: string, ko: string)

  datatype Tag = Tag(id: int, name: TagName)

  /** Only the slug of a work's category is read. */
  datatype Category = Category(slug: string)

  datatype WorkResource = WorkResource(
    title: string,
    slug: string,
    description: string,
    linkVideo: string,
    optimizeAttachmentUrl: Option<string>,
    attachmentUrl: string,
    category: Category,
    tags: seq<Tag>)

  /** The envelope of a collection response: `{ data: T[] }`. */
  datatype ApiResponse = ApiResponse(data: seq<WorkResource>)

  datatype ImageType = Hero | Aerial | Exterior | Interior | Detail | Concept

  datatype OrganizedProjectImage = OrganizedProjectImage(
    id: string,
    url: string,
    title: string,
    description: string,
    imageType: ImageType,
    tags: seq<string>)

  datatype OrganizedProject = OrganizedProject(
    title: string,
    description: string,
    images: seq<OrganizedProjectImage>,
    totalImages: int)

  /** `work.link_video` is truthy. */
  predicate HasVideo(w: WorkResource) {
    w.linkVideo != ""
  }
}

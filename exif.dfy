/**
 * The EXIF tags the script reads from an image. The tag library's parsing is
 * not modelled: the two size tags arrive as natural numbers and the capture
 * time as the tag's string value, each absent when the image lacks the tag.
 */
module Exif {
  import opened Wrappers

  const WidthTag: string := "EXIF ExifImageWidth"
  const LengthTag: string := "EXIF ExifImageLength"
  const DateTimeOriginalTag: string := "EXIF DateTimeOriginal"

  datatype Tags = Tags(width: Option<nat>, length: Option<nat>, dateTimeOriginal: Option<string>)

  /** The script's `name in tags` presence test, for the tag names this model knows. */
  predicate Has(tags: Tags, name: string) {
    if name == WidthTag then tags.width.Some?
    else if name == LengthTag then tags.length.Some?
    else if name == DateTimeOriginalTag then tags.dateTimeOriginal.Some?
    else false
  }
}

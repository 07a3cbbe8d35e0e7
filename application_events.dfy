/** The Spring application events the link core publishes inside a
    transaction; each carries the link it is about. */
module ApplicationEvents {
  import opened LinkModel

  datatype ApplicationEvent =
    | LinkCreatedApplicationEvent(link: Link)
    | LinkUpdatedApplicationEvent(link: Link)
    | LinkDeletedApplicationEvent(link: Link)
}

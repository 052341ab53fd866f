/** An optional value: `None` stands for JavaScript's `undefined` or for a
    lookup that found nothing. */
module Maybe {

  datatype Option<+T> = None | Some(value: T)
}

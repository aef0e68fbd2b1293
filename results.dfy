/** Optional values and error returns for the sensor's checked inputs. */
module Results {

  datatype Option<T> = None | Some(value: T)

  /** The assertion errors the sensor raises on unsupported string options. */
  datatype Error =
    | UnsupportedFormat(format: string)
    | UnsupportedNormalization(name: string)

  datatype Result<T> = Ok(value: T) | Err(error: Error)
}

/** The Unity objects the caches hand out (sprites and textures). */
module Unity {

  /** A `UnityEngine.Object`: a reference with a mutable `name`. `alive`
      becomes false when `Object.Destroy` runs on it; from then on Unity's
      overloaded `== null` reports the reference as null. */
  class UnityObject {
    var name: string
    var alive: bool

    constructor (name: string)
      ensures this.name == name && alive
    {
      this.name := name;
      alive := true;
    }
  }
}
